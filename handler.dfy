/** The key-value engine of handler/handler.go: the command table, the two
    package-level maps (mySet for plain keys, myHSet for hashes of fields)
    and the seven command handlers.

    The pure functions Apply and Respond say what a command does to the two
    maps and what it answers; the class Engine holds the maps as fields and
    its methods, one per handler, are proved to do exactly that. The lemmas
    at the end state what the handlers promise: a GET sees the last SET, an
    HGET the last HSET, every write touches one entry only, a wrong argument
    count answers a fixed Error and changes nothing, and HGETALL lists every
    field of a hash exactly once. */
module Handler {
  import opened GoTypes
  import opened Resp

  /** The seven handlers the table can route to. */
  datatype Cmd = CmdPing | CmdCommand | CmdGet | CmdSet | CmdHGet | CmdHSet | CmdHGetAll

  /** The Handlers table, keyed by upper-case command name. */
  const Handlers: map<Bytes, Cmd> := map[
    "PING" := CmdPing,
    "COMMAND" := CmdCommand,
    "GET" := CmdGet,
    "SET" := CmdSet,
    "HGET" := CmdHGet,
    "HSET" := CmdHSet,
    "HGETALL" := CmdHGetAll
  ]

  /** Both maps at once. A stored value is whatever payload the request's
      argument carried (`any` in Go). */
  datatype Store = Store(strings: map<Bytes, Payload>, hashes: map<Bytes, map<Bytes, Payload>>)

  const Empty: Store := Store(map[], map[])

  /** The argument count a handler insists on; PING and COMMAND take any. */
  function Arity(c: Cmd): Option<nat> {
    match c
    case CmdGet => Some(1)
    case CmdSet => Some(2)
    case CmdHGet => Some(2)
    case CmdHSet => Some(3)
    case CmdHGetAll => Some(1)
    case _ => None
  }

  /** The Error text a handler answers a wrong argument count with. */
  function ArityMessage(c: Cmd): Bytes
    requires Arity(c).Some?
  {
    match c
    case CmdGet => Expected("1 argument", "GET")
    case CmdSet => Expected("2 arguments", "SET")
    case CmdHGet => Expected("2 arguments", "HGET")
    case CmdHSet => Expected("3 arguments", "HSET")
    case CmdHGetAll => Expected("1 argument", "HGETALL")
  }

  /** "Expected exactly <count> for <name> command". */
  function Expected(count: Bytes, name: Bytes): Bytes {
    "Expected exactly " + count + " for " + name + " command"
  }

  predicate WrongArity(c: Cmd, args: seq<Value>) {
    Arity(c).Some? && |args| != Arity(c).value
  }

  /** The handler's type assertions succeed: once the count is right, the
      arguments used as a key, a hash or a field hold text. A stored value
      may be any payload. */
  predicate Accepts(c: Cmd, args: seq<Value>) {
    WrongArity(c, args) ||
    match c
    case CmdGet => args[0].val.Text?
    case CmdSet => args[0].val.Text?
    case CmdHGet => args[0].val.Text? && args[1].val.Text?
    case CmdHSet => args[0].val.Text? && args[1].val.Text?
    case CmdHGetAll => args[0].val.Text?
    case _ => true
  }

  /** The fields of a hash; a hash never written is Go's nil map, which
      reads as empty. */
  function Fields(st: Store, hash: Bytes): map<Bytes, Payload> {
    if hash in st.hashes then st.hashes[hash] else map[]
  }

  /** What a command does to the maps: SET writes one key, HSET one field
      of one hash (creating the hash), everything else writes nothing. */
  function Apply(st: Store, c: Cmd, args: seq<Value>): (r: Store)
    requires Accepts(c, args)
    ensures c != CmdSet ==> r.strings == st.strings
    ensures c != CmdHSet ==> r.hashes == st.hashes
    ensures st.strings.Keys <= r.strings.Keys && st.hashes.Keys <= r.hashes.Keys
  {
    if WrongArity(c, args) then st
    else if c == CmdSet then
      st.(strings := st.strings[args[0].val.text := args[1].val])
    else if c == CmdHSet then
      var hash := args[0].val.text;
      st.(hashes := st.hashes[hash := Fields(st, hash)[args[1].val.text := args[2].val]])
    else st
  }

  /** The HGETALL reply for fields listed in the given order: a String of
      each field followed by a String of its value. */
  function Pairs(h: map<Bytes, Payload>, order: seq<Bytes>): (r: seq<Value>)
    requires forall i :: 0 <= i < |order| ==> order[i] in h
    ensures |r| == 2 * |order|
  {
    if |order| == 0 then []
    else
      var k := order[|order| - 1];
      Pairs(h, order[..|order| - 1]) + [Str(k), Value(TagStr, h[k])]
  }

  lemma PairsAppend(h: map<Bytes, Payload>, order: seq<Bytes>, k: Bytes)
    requires forall i :: 0 <= i < |order| ==> order[i] in h
    requires k in h
    ensures Pairs(h, order + [k]) == Pairs(h, order) + [Str(k), Value(TagStr, h[k])]
  {
    assert (order + [k])[..|order|] == order;
  }

  /** order lists every key of keys exactly once. Go ranges over a map in
      an unspecified order, so HGETALL's reply is fixed only up to it. */
  ghost predicate IsOrdering(order: seq<Bytes>, keys: set<Bytes>) {
    && (forall i, j :: 0 <= i < j < |order| ==> order[i] != order[j])
    && (forall k :: k in keys <==> k in order)
  }

  /** What a command answers. order is the order in which HGETALL met the
      fields of its hash; the other commands ignore it. */
  function Respond(st: Store, c: Cmd, args: seq<Value>, order: seq<Bytes>): (r: Value)
    requires Accepts(c, args)
    requires c == CmdHGetAll && !WrongArity(c, args) ==> IsOrdering(order, Fields(st, args[0].val.text).Keys)
    ensures r.tag == TagErr <==> WrongArity(c, args)
    ensures r.tag == TagErr ==> r == Err(ArityMessage(c))
  {
    if WrongArity(c, args) then Err(ArityMessage(c))
    else match c
      case CmdPing => if |args| == 0 then Str("PONG") else Value(TagStr, args[0].val)
      case CmdCommand => Str("")
      case CmdGet =>
        var key := args[0].val.text;
        if key in st.strings then Value(TagBulk, st.strings[key]) else Nil()
      case CmdSet => Str("OK")
      case CmdHGet =>
        var h := Fields(st, args[0].val.text);
        var key := args[1].val.text;
        if key in h then Value(TagBulk, h[key]) else Nil()
      case CmdHSet => Str("OK")
      case CmdHGetAll => Arr(Pairs(Fields(st, args[0].val.text), order))
  }

  // ---------------------------------------------------------------------
  // What the handlers promise

  /** Every handler is in the table under exactly one name. */
  lemma TableIsOneToOne()
    ensures forall c: Cmd :: c in Handlers.Values
    ensures forall a, b :: a in Handlers && b in Handlers && Handlers[a] == Handlers[b] ==> a == b
  {
    forall c: Cmd ensures c in Handlers.Values {
      var name := NameOf(c);
      assert Handlers[name] == c;
    }
  }

  /** The table name of each handler. */
  function NameOf(c: Cmd): (name: Bytes)
    ensures name in Handlers && Handlers[name] == c
  {
    match c
    case CmdPing => "PING"
    case CmdCommand => "COMMAND"
    case CmdGet => "GET"
    case CmdSet => "SET"
    case CmdHGet => "HGET"
    case CmdHSet => "HSET"
    case CmdHGetAll => "HGETALL"
  }

  /** How many arguments a handler's arity Error asks for. */
  function CountText(n: nat): Bytes
    requires 0 < n < 10
  {
    [('0' as int + n) as char] + (if n == 1 then " argument" else " arguments")
  }

  /** A handler's arity Error names the command as the table spells it,
      with the argument count the handler insists on. */
  lemma ArityMessageNamesCommand(c: Cmd)
    requires Arity(c).Some?
    ensures 0 < Arity(c).value < 10
    ensures ArityMessage(c) == Expected(CountText(Arity(c).value), NameOf(c))
  {
    match c
    case CmdGet => assert CountText(1) == "1 argument";
    case CmdSet => assert CountText(2) == "2 arguments";
    case CmdHGet => assert CountText(2) == "2 arguments";
    case CmdHSet => assert CountText(3) == "3 arguments";
    case CmdHGetAll => assert CountText(1) == "1 argument";
  }

  /** A wrong argument count answers the command's Error and changes
      neither map. */
  lemma WrongArityChangesNothing(st: Store, c: Cmd, args: seq<Value>, order: seq<Bytes>)
    requires WrongArity(c, args)
    ensures Accepts(c, args)
    ensures Apply(st, c, args) == st
    ensures Respond(st, c, args, order) == Err(ArityMessage(c))
  {
  }

  /** Only SET and HSET write. */
  lemma OnlyWritesChangeState(st: Store, c: Cmd, args: seq<Value>)
    requires Accepts(c, args) && c != CmdSet && c != CmdHSet
    ensures Apply(st, c, args) == st
  {
  }

  /** SET answers OK, and a GET of the same key then answers a Bulk holding
      the value set, whatever was stored before. */
  lemma GetAfterSet(st: Store, key: Value, value: Value)
    requires key.val.Text?
    ensures Respond(st, CmdSet, [key, value], []) == Str("OK")
    ensures Respond(Apply(st, CmdSet, [key, value]), CmdGet, [key], []) == Value(TagBulk, value.val)
  {
  }

  /** GET of a key that was never set answers Nil. */
  lemma GetAbsent(st: Store, key: Value)
    requires key.val.Text? && key.val.text !in st.strings
    ensures Respond(st, CmdGet, [key], []) == Nil()
  {
  }

  /** SET changes only its own key: every other key keeps its presence and
      value, and the hashes are untouched. */
  lemma SetFrame(st: Store, key: Value, value: Value)
    requires key.val.Text?
    ensures var after := Apply(st, CmdSet, [key, value]);
      && after.hashes == st.hashes
      && key.val.text in after.strings
      && forall k :: k != key.val.text ==>
           (k in after.strings <==> k in st.strings) &&
           (k in st.strings ==> after.strings[k] == st.strings[k])
  {
  }

  /** HSET answers OK, and an HGET of the same hash and field then answers a
      Bulk holding the value set. */
  lemma HGetAfterHSet(st: Store, hash: Value, field: Value, value: Value)
    requires hash.val.Text? && field.val.Text?
    ensures Respond(st, CmdHSet, [hash, field, value], []) == Str("OK")
    ensures Respond(Apply(st, CmdHSet, [hash, field, value]), CmdHGet, [hash, field], [])
         == Value(TagBulk, value.val)
  {
  }

  /** HSET creates the hash if needed and changes only its one field: the
      plain keys, every other hash and every other field of this hash are
      as they were. */
  lemma HSetFrame(st: Store, hash: Value, field: Value, value: Value)
    requires hash.val.Text? && field.val.Text?
    ensures var after := Apply(st, CmdHSet, [hash, field, value]);
      var h := hash.val.text;
      && after.strings == st.strings
      && h in after.hashes
      && (forall g :: g != h ==> (g in after.hashes <==> g in st.hashes))
      && (forall g :: g != h && g in st.hashes ==> after.hashes[g] == st.hashes[g])
      && forall f :: f != field.val.text ==>
           (f in Fields(after, h) <==> f in Fields(st, h)) &&
           (f in Fields(st, h) ==> Fields(after, h)[f] == Fields(st, h)[f])
  {
  }

  /** HGET answers Nil when the hash or the field is missing. */
  lemma HGetAbsent(st: Store, hash: Value, field: Value)
    requires hash.val.Text? && field.val.Text?
    requires hash.val.text !in st.hashes || field.val.text !in st.hashes[hash.val.text]
    ensures Respond(st, CmdHGet, [hash, field], []) == Nil()
  {
  }

  /** PING answers PONG, or echoes its first argument's payload as a
      String; COMMAND answers the empty String. */
  lemma PingAndCommand(st: Store, args: seq<Value>)
    ensures Respond(st, CmdPing, [], []) == Str("PONG")
    ensures |args| > 0 ==> Respond(st, CmdPing, args, []) == Value(TagStr, args[0].val)
    ensures Respond(st, CmdCommand, args, []) == Str("")
  {
  }

  /** An ordering of a set of keys has exactly as many entries as the set. */
  lemma {:induction false} OrderingSize(order: seq<Bytes>, keys: set<Bytes>)
    requires IsOrdering(order, keys)
    ensures |order| == |keys|
    decreases |order|
  {
    if |order| == 0 {
      assert keys == {};
    } else {
      var last := order[|order| - 1];
      var init := order[..|order| - 1];
      forall k | k in init ensures k != last {
        var i :| 0 <= i < |init| && init[i] == k;
        assert order[i] == k;
      }
      forall k | k in keys - {last} ensures k in init {
        var i :| 0 <= i < |order| && order[i] == k;
        assert i != |order| - 1;
        assert init[i] == k;
      }
      OrderingSize(init, keys - {last});
    }
  }

  /** Pair i of the HGETALL reply is the i-th field listed and its value. */
  lemma {:induction false} PairsAt(h: map<Bytes, Payload>, order: seq<Bytes>, i: nat)
    requires forall j :: 0 <= j < |order| ==> order[j] in h
    requires i < |order|
    ensures Pairs(h, order)[2 * i] == Str(order[i])
    ensures Pairs(h, order)[2 * i + 1] == Value(TagStr, h[order[i]])
    decreases |order|
  {
    var init := order[..|order| - 1];
    if i < |order| - 1 {
      PairsAt(h, init, i);
      assert init[i] == order[i];
    }
  }

  /** HGETALL answers an Array with one field/value pair of Strings per
      field of the hash, each field listed once; an absent hash gives the
      empty Array. */
  lemma HGetAllListsEveryField(st: Store, hash: Value, order: seq<Bytes>)
    requires hash.val.Text?
    requires IsOrdering(order, Fields(st, hash.val.text).Keys)
    ensures var r := Respond(st, CmdHGetAll, [hash], order);
      var h := Fields(st, hash.val.text);
      && r.tag == TagArr && r.val.Elems?
      && |r.val.elems| == 2 * |h|
      && (hash.val.text !in st.hashes ==> r.val.elems == [])
      && forall i :: 0 <= i < |order| ==>
           order[i] in h &&
           r.val.elems[2 * i] == Str(order[i]) &&
           r.val.elems[2 * i + 1] == Value(TagStr, h[order[i]])
  {
    var h := Fields(st, hash.val.text);
    OrderingSize(order, h.Keys);
    assert |h.Keys| == |h|;
    forall i | 0 <= i < |order|
      ensures Pairs(h, order)[2 * i] == Str(order[i])
      ensures Pairs(h, order)[2 * i + 1] == Value(TagStr, h[order[i]])
    {
      PairsAt(h, order, i);
    }
  }

  // ---------------------------------------------------------------------
  // Writes laid over earlier maps

  /** The maps s with the writes of w laid over them: every key of w takes
      w's value, and every hash of w gains w's fields over its own. */
  function Overlay(s: Store, w: Store): Store {
    Store(s.strings + w.strings,
          map h | h in s.hashes.Keys + w.hashes.Keys :: if h in w.hashes then Fields(s, h) + w.hashes[h] else s.hashes[h])
  }

  lemma OverlayFields(s: Store, w: Store, h: Bytes)
    ensures Fields(Overlay(s, w), h) == Fields(s, h) + Fields(w, h)
  {
    if h !in w.hashes {
      assert Fields(s, h) + map[] == Fields(s, h);
    }
  }

  /** Nothing laid over s leaves s as it was. */
  lemma OverlayEmpty(s: Store)
    ensures Overlay(s, Empty) == s
  {
    assert Overlay(s, Empty).strings == s.strings;
    assert Overlay(s, Empty).hashes == s.hashes;
  }

  /** Laying the same writes over twice is laying them over once. */
  lemma OverlayTwice(s: Store, w: Store)
    ensures Overlay(Overlay(s, w), w) == Overlay(s, w)
  {
    var o := Overlay(s, w);
    assert Overlay(o, w).strings == o.strings;
    forall h | h in w.hashes
      ensures Fields(o, h) + w.hashes[h] == o.hashes[h]
    {
      OverlayFields(s, w, h);
    }
    assert Overlay(o, w).hashes == o.hashes;
  }

  lemma UpdateOverUnion(a: map<Bytes, Payload>, b: map<Bytes, Payload>, k: Bytes, v: Payload)
    ensures (a + b)[k := v] == a + b[k := v]
  {
  }

  lemma OverlaySet(s: Store, w: Store, args: seq<Value>)
    requires Accepts(CmdSet, args) && !WrongArity(CmdSet, args)
    ensures Apply(Overlay(s, w), CmdSet, args) == Overlay(s, Apply(w, CmdSet, args))
  {
    var k, v := args[0].val.text, args[1].val;
    UpdateOverUnion(s.strings, w.strings, k, v);
  }

  /** Writing one field over laid-over maps is laying the write over. */
  lemma OverlayWriteField(s: Store, w: Store, hash: Bytes, f: Bytes, v: Payload)
    ensures var o := Overlay(s, w);
      o.hashes[hash := Fields(o, hash)[f := v]]
      == Overlay(s, w.(hashes := w.hashes[hash := Fields(w, hash)[f := v]])).hashes
  {
    var o := Overlay(s, w);
    var w' := w.(hashes := w.hashes[hash := Fields(w, hash)[f := v]]);
    var after := o.hashes[hash := Fields(o, hash)[f := v]];
    var laid := Overlay(s, w').hashes;
    OverlayFields(s, w, hash);
    UpdateOverUnion(Fields(s, hash), Fields(w, hash), f, v);
    assert after.Keys == laid.Keys;
    forall h | h in after
      ensures after[h] == laid[h]
    {
      if h != hash && h in w.hashes {
        assert w'.hashes[h] == w.hashes[h];
      }
    }
  }

  lemma OverlayHSet(s: Store, w: Store, args: seq<Value>)
    requires Accepts(CmdHSet, args) && !WrongArity(CmdHSet, args)
    ensures Apply(Overlay(s, w), CmdHSet, args) == Overlay(s, Apply(w, CmdHSet, args))
  {
    OverlayWriteField(s, w, args[0].val.text, args[1].val.text, args[2].val);
  }

  /** Running a command on s with earlier writes w laid over it is laying
      the command's run on w over s: a handler writes the same key or
      field, with the same value, whatever else the maps hold. */
  lemma OverlayApply(s: Store, w: Store, c: Cmd, args: seq<Value>)
    requires Accepts(c, args)
    ensures Apply(Overlay(s, w), c, args) == Overlay(s, Apply(w, c, args))
  {
    if !WrongArity(c, args) {
      if c == CmdSet {
        OverlaySet(s, w, args);
      } else if c == CmdHSet {
        OverlayHSet(s, w, args);
      }
    }
  }

  /** The state the handlers share: mySet and myHSet. */
  class Engine {
    var strings: map<Bytes, Payload>
    var hashes: map<Bytes, map<Bytes, Payload>>

    function State(): Store
      reads this
    {
      Store(strings, hashes)
    }

    /** Both maps start empty. */
    constructor ()
      ensures State() == Empty
    {
      strings := map[];
      hashes := map[];
    }

    method Ping(args: seq<Value>) returns (r: Value)
      ensures r == Respond(State(), CmdPing, args, [])
    {
      if |args| == 0 {
        return Str("PONG");
      }
      r := Value(TagStr, args[0].val);
    }

    method Command(args: seq<Value>) returns (r: Value)
      ensures r == Respond(State(), CmdCommand, args, [])
    {
      r := Str("");
    }

    method Get(args: seq<Value>) returns (r: Value)
      requires Accepts(CmdGet, args)
      ensures r == Respond(State(), CmdGet, args, [])
    {
      if |args| != 1 {
        return Err(Expected("1 argument", "GET"));
      }
      var key := args[0].val.text;
      if key !in strings {
        return Nil();
      }
      r := Value(TagBulk, strings[key]);
    }

    method Set(args: seq<Value>) returns (r: Value)
      requires Accepts(CmdSet, args)
      modifies this
      ensures State() == Apply(old(State()), CmdSet, args)
      ensures r == Respond(old(State()), CmdSet, args, [])
    {
      if |args| != 2 {
        return Err(Expected("2 arguments", "SET"));
      }
      var key := args[0].val.text;
      var value := args[1].val;
      strings := strings[key := value];
      r := Str("OK");
    }

    method HGet(args: seq<Value>) returns (r: Value)
      requires Accepts(CmdHGet, args)
      ensures r == Respond(State(), CmdHGet, args, [])
    {
      if |args| != 2 {
        return Err(Expected("2 arguments", "HGET"));
      }
      var hash := args[0].val.text;
      var key := args[1].val.text;
      if hash !in hashes || key !in hashes[hash] {
        return Nil();
      }
      r := Value(TagBulk, hashes[hash][key]);
    }

    method HSet(args: seq<Value>) returns (r: Value)
      requires Accepts(CmdHSet, args)
      modifies this
      ensures State() == Apply(old(State()), CmdHSet, args)
      ensures r == Respond(old(State()), CmdHSet, args, [])
    {
      if |args| != 3 {
        return Err(Expected("3 arguments", "HSET"));
      }
      var hash := args[0].val.text;
      var key := args[1].val.text;
      var value := args[2].val;
      if hash !in hashes {
        hashes := hashes[hash := map[]];
      }
      hashes := hashes[hash := hashes[hash][key := value]];
      r := Str("OK");
    }

    /** Walks the fields of the hash in an order of its own choosing (Go's
        map iteration order), appending a field/value pair per field. The
        order it chose is handed back as a ghost result. */
    method HGetAll(args: seq<Value>) returns (r: Value, ghost order: seq<Bytes>)
      requires Accepts(CmdHGetAll, args)
      ensures !WrongArity(CmdHGetAll, args) ==> IsOrdering(order, Fields(State(), args[0].val.text).Keys)
      ensures r == Respond(State(), CmdHGetAll, args, order)
    {
      order := [];
      if |args| != 1 {
        return Err(Expected("1 argument", "HGETALL")), order;
      }
      var hash := args[0].val.text;
      var value := if hash in hashes then hashes[hash] else map[];
      assert value == Fields(State(), hash);
      var arrayValue: seq<Value> := [];
      var remaining := value.Keys;
      while remaining != {}
        invariant remaining <= value.Keys
        invariant forall i, j :: 0 <= i < j < |order| ==> order[i] != order[j]
        invariant forall k :: k in value.Keys <==> k in remaining || k in order
        invariant forall k :: k in order ==> k !in remaining
        invariant arrayValue == Pairs(value, order)
        decreases |remaining|
      {
        var k :| k in remaining;
        PairsAppend(value, order, k);
        arrayValue := arrayValue + [Str(k), Value(TagStr, value[k])];
        order := order + [k];
        remaining := remaining - {k};
      }
      r := Arr(arrayValue);
    }

    /** The call `handler(args)` through the table: runs the handler the
        command names. */
    method Call(c: Cmd, args: seq<Value>) returns (r: Value, ghost order: seq<Bytes>)
      requires Accepts(c, args)
      modifies this
      ensures State() == Apply(old(State()), c, args)
      ensures c == CmdHGetAll && !WrongArity(c, args) ==> IsOrdering(order, Fields(old(State()), args[0].val.text).Keys)
      ensures r == Respond(old(State()), c, args, order)
    {
      order := [];
      match c
      case CmdPing => r := Ping(args);
      case CmdCommand => r := Command(args);
      case CmdGet => r := Get(args);
      case CmdSet => r := Set(args);
      case CmdHGet => r := HGet(args);
      case CmdHSet => r := HSet(args);
      case CmdHGetAll => r, order := HGetAll(args);
    }
  }
}
