/**
 The way in: the WebSocket reader's buffer (`sysap/ws.py`), the routing of datapoints
 (`bus/ingress.py`), and why replaying the buffer over a newer snapshot still ends at the truth.
 */
module Ingress {
  import opened Lists
  import opened Wrappers
  import opened Values
  import opened Bits
  import opened State

  // ---------------------------------------------------------------- the reader's buffer

  datatype Datapoint = Datapoint(key: string, raw: string)

  type Frame = seq<Datapoint>

  /** One uuid-keyed body of a WebSocket message; `None` is a body that is not an object. */
  datatype Message = Message(uuid: string, body: Option<Frame>)

  datatype Reader = Reader(uuid: Option<string>, buffering: bool, buffer: seq<Frame>, limit: nat)

  datatype Outcome = Dropped | Buffered | Overflowed | Delivered(frame: Frame)

  function StartedBuffering(r: Reader): Reader {
    r.(buffering := true, buffer := [])
  }

  /** The first message decides which SysAP the reader listens to. */
  function Listening(r: Reader, m: Message): Reader {
    if r.uuid.None? then r.(uuid := Some(m.uuid)) else r
  }

  predicate Accepts(r: Reader, m: Message) {
    (r.uuid.None? || r.uuid.value == m.uuid) && m.body.Some?
  }

  function Dispatched(r: Reader, m: Message): (Reader, Outcome) {
    var l := Listening(r, m);
    if !Accepts(r, m) then (l, Dropped)
    else if !r.buffering then (l, Delivered(m.body.value))
    else if |r.buffer| >= r.limit then (l, Overflowed)
    else (l.(buffer := r.buffer + [m.body.value]), Buffered)
  }

  class WsReader {
    const limit: nat
    var uuid: Option<string>
    var buffering: bool
    var buffer: seq<Frame>

    function Model(): Reader
      reads this
    {
      Reader(uuid, buffering, buffer, limit)
    }

    constructor (limit: nat)
      ensures Model() == Reader(None, false, [], limit)
    {
      this.limit := limit;
      uuid, buffering, buffer := None, false, [];
    }

    method StartBuffering()
      modifies this
      ensures Model() == StartedBuffering(old(Model()))
    {
      buffering := true;
      buffer := [];
    }

    method DrainBuffer() returns (frames: seq<Frame>)
      modifies this
      ensures frames == old(buffer)
      ensures Model() == old(Model()).(buffering := false, buffer := [])
    {
      frames, buffer := buffer, [];
      buffering := false;
    }

    method DispatchOne(m: Message) returns (outcome: Outcome)
      modifies this
      ensures (Model(), outcome) == Dispatched(old(Model()), m)
    {
      if uuid.None? {
        uuid := Some(m.uuid);
      } else if m.uuid != uuid.value {
        return Dropped;
      }
      if m.body.None? {
        return Dropped;
      }
      if buffering {
        if |buffer| >= limit {
          return Overflowed;
        }
        buffer := buffer + [m.body.value];
        return Buffered;
      }
      outcome := Delivered(m.body.value);
    }
  }

  /** The SysAP the reader listens to, once this message has come. */
  function SysapOf(r: Reader, first: Message): string {
    if r.uuid.Some? then r.uuid.value else first.uuid
  }

  /** Another SysAP's message and a body that is no object are dropped; else mode and limit decide. */
  lemma DispatchMeans(r: Reader, m: Message)
    ensures var (n, outcome) := Dispatched(r, m);
            && n.uuid == Some(SysapOf(r, m)) && n.buffering == r.buffering && n.limit == r.limit
            && (outcome.Dropped? <==> m.uuid != SysapOf(r, m) || m.body.None?)
            && (outcome.Overflowed? <==> !outcome.Dropped? && r.buffering && |r.buffer| >= r.limit)
            && (outcome.Buffered? <==> !outcome.Dropped? && r.buffering && |r.buffer| < r.limit)
            && (outcome.Delivered? ==> Some(outcome.frame) == m.body)
            && n.buffer == r.buffer + if outcome.Buffered? then [m.body.value] else []
  {
  }

  /** The messages before `n` of the SysAP with this uuid that carry an object. */
  function FramesBefore(uuid: string, ms: seq<Message>, n: nat): set<nat>
    requires n <= |ms|
  {
    set i: nat | i < n && ms[i].uuid == uuid && ms[i].body.Some?
  }

  /** The frames that the reader takes from a stream of messages. */
  function Taken(r: Reader, ms: seq<Message>): seq<Frame>
    decreases |ms|
  {
    if ms == [] then []
    else (if Accepts(r, ms[0]) then [ms[0].body.value] else []) + Taken(Listening(r, ms[0]), ms[1..])
  }

  function DispatchedAll(r: Reader, ms: seq<Message>): Reader
    decreases |ms|
  {
    if ms == [] then r else DispatchedAll(Dispatched(r, ms[0]).0, ms[1..])
  }

  predicate Overflows(r: Reader, ms: seq<Message>)
    decreases |ms|
  {
    ms != [] && (Dispatched(r, ms[0]).1.Overflowed? || Overflows(Dispatched(r, ms[0]).0, ms[1..]))
  }

  lemma {:induction false} TakenConcat(r: Reader, a: seq<Message>, m: Message)
    requires r.uuid.Some?
    ensures Taken(r, a + [m]) == Taken(r, a) + if m.uuid == r.uuid.value && m.body.Some? then [m.body.value] else []
    decreases |a|
  {
    if a == [] {
      assert (a + [m])[1..] == [];
    } else {
      assert (a + [m])[1..] == a[1..] + [m];
      TakenConcat(r, a[1..], m);
    }
  }

  lemma TakenStarts(r: Reader, ms: seq<Message>)
    requires ms != []
    ensures Taken(r, ms) == Taken(r.(uuid := Some(SysapOf(r, ms[0]))), ms)
  {
  }

  /** What is taken are the objects of one SysAP, all of them and in order. */
  lemma {:induction false} TakenAreFrames(r: Reader, ms: seq<Message>, i: nat)
    requires r.uuid.Some? && i < |ms| && ms[i].uuid == r.uuid.value && ms[i].body.Some?
    ensures var k := |FramesBefore(r.uuid.value, ms, i)|;
            k < |Taken(r, ms)| && Taken(r, ms)[k] == ms[i].body.value
  {
    var last := |ms| - 1;
    assert ms == ms[..last] + [ms[last]];
    TakenConcat(r, ms[..last], ms[last]);
    assert FramesBefore(r.uuid.value, ms, i) == FramesBefore(r.uuid.value, ms[..last], i);
    hide Taken, FramesBefore;
    if i == last {
      TakenAreCounted(r, ms[..last]);
    } else {
      TakenAreFrames(r, ms[..last], i);
    }
  }

  lemma {:induction false} TakenAreCounted(r: Reader, ms: seq<Message>)
    requires r.uuid.Some?
    ensures |Taken(r, ms)| == |FramesBefore(r.uuid.value, ms, |ms|)|
  {
    if ms != [] {
      var last := |ms| - 1;
      assert ms == ms[..last] + [ms[last]];
      TakenConcat(r, ms[..last], ms[last]);
      TakenAreCounted(r, ms[..last]);
      var before := FramesBefore(r.uuid.value, ms[..last], last);
      assert FramesBefore(r.uuid.value, ms, |ms|) ==
             before + if ms[last].uuid == r.uuid.value && ms[last].body.Some? then {last} else {};
      assert last !in before;
      hide Taken, FramesBefore;
    }
  }

  lemma {:induction false} TakenIgnoresBuffer(r: Reader, q: Reader, ms: seq<Message>)
    requires r.uuid == q.uuid
    ensures Taken(r, ms) == Taken(q, ms)
    decreases |ms|
  {
    if ms != [] {
      TakenIgnoresBuffer(Listening(r, ms[0]), Listening(q, ms[0]), ms[1..]);
    }
  }

  /** Unless it overflows, the buffer ends up with every taken frame, in order of arrival. */
  lemma {:induction false} BufferKeepsEverything(r: Reader, ms: seq<Message>)
    requires r.buffering && !Overflows(r, ms)
    ensures DispatchedAll(r, ms).buffer == r.buffer + Taken(r, ms) && DispatchedAll(r, ms).buffering
    decreases |ms|
  {
    if ms != [] {
      var next := Dispatched(r, ms[0]).0;
      BufferKeepsEverything(next, ms[1..]);
      TakenIgnoresBuffer(next, Listening(r, ms[0]), ms[1..]);
    }
  }

  // ---------------------------------------------------------------- routing

  datatype Binding = Binding(entity: nat, attr: nat, kind: Kind, bits: nat, decode: string -> Json)

  type Table = map<string, Binding>

  datatype Edge = Edge(entity: nat, attr: nat, value: Json)

  predicate Bound(table: Table, s: Store) {
    forall k :: k in table ==> s.Has(table[k].entity, table[k].attr)
  }

  function Routed(table: Table, s: Store, d: Datapoint): (t: Store)
    requires Bound(table, s)
    ensures Bound(table, t)
  {
    if d.key !in table || table[d.key].kind.EventAttr? then s
    else
      var b := table[d.key];
      Applied(s, b.entity, b.attr, b.decode(d.raw), b.bits)
  }

  function RoutedAll(table: Table, s: Store, ds: seq<Datapoint>): (t: Store)
    requires Bound(table, s)
    ensures Bound(table, t)
    decreases |ds|
  {
    if ds == [] then s else RoutedAll(table, Routed(table, s, ds[0]), ds[1..])
  }

  /** Events bypass the store: one message for each edge, repeats included. */
  function Edges(table: Table, ds: seq<Datapoint>): seq<Edge>
    decreases |ds|
  {
    if ds == [] then []
    else if ds[0].key !in table || table[ds[0].key].kind.StateAttr? then Edges(table, ds[1..])
    else
      var b := table[ds[0].key];
      [Edge(b.entity, b.attr, b.decode(ds[0].raw))] + Edges(table, ds[1..])
  }

  /** The datapoints before `n` that are events. */
  function EventsBefore(table: Table, ds: seq<Datapoint>, n: nat): set<nat>
    requires n <= |ds|
  {
    set i: nat | i < n && ds[i].key in table && table[ds[i].key].kind.EventAttr?
  }

  lemma {:induction false} EdgesConcat(table: Table, a: seq<Datapoint>, b: seq<Datapoint>)
    ensures Edges(table, a + b) == Edges(table, a) + Edges(table, b)
    decreases |a|
  {
    if a == [] {
      assert a + b == b;
    } else {
      assert (a + b)[1..] == a[1..] + b;
      EdgesConcat(table, a[1..], b);
    }
  }

  lemma EdgesOfLast(table: Table, ds: seq<Datapoint>)
    requires ds != []
    ensures var last := |ds| - 1;
            var event := ds[last].key in table && table[ds[last].key].kind.EventAttr?;
            && Edges(table, ds) == Edges(table, ds[..last]) + Edges(table, [ds[last]])
            && EventsBefore(table, ds, |ds|) == EventsBefore(table, ds[..last], last) + if event then {last} else {}
  {
    var last := |ds| - 1;
    assert ds == ds[..last] + [ds[last]];
    EdgesConcat(table, ds[..last], [ds[last]]);
  }

  /** A datapoint bound to an EVENT makes one edge with its decoded value, and no other datapoint makes any. */
  lemma EdgeOfOne(table: Table, d: Datapoint)
    ensures Edges(table, [d]) ==
            if d.key !in table || !table[d.key].kind.EventAttr? then []
            else [Edge(table[d.key].entity, table[d.key].attr, table[d.key].decode(d.raw))]
  {
    assert [d][1..] == [];
  }

  /** There are as many edges as event datapoints, repeats included. */
  lemma {:induction false} EdgesAreCounted(table: Table, ds: seq<Datapoint>)
    ensures |Edges(table, ds)| == |EventsBefore(table, ds, |ds|)|
  {
    if ds != [] {
      var last := |ds| - 1;
      EdgesOfLast(table, ds);
      EdgeOfOne(table, ds[last]);
      EdgesAreCounted(table, ds[..last]);
      assert last !in EventsBefore(table, ds[..last], last);
      hide Edges, EventsBefore;
    }
  }

  /** Edge `k` is that of the event datapoint with `k` events before it. */
  lemma {:induction false} EdgeOfEvent(table: Table, ds: seq<Datapoint>, i: nat)
    requires i < |ds| && ds[i].key in table && table[ds[i].key].kind.EventAttr?
    ensures var k, b := |EventsBefore(table, ds, i)|, table[ds[i].key];
            k < |Edges(table, ds)| && Edges(table, ds)[k] == Edge(b.entity, b.attr, b.decode(ds[i].raw))
  {
    var last := |ds| - 1;
    EdgesOfLast(table, ds);
    assert EventsBefore(table, ds, i) == EventsBefore(table, ds[..last], i);
    hide Edges, EventsBefore;
    if i == last {
      EdgeOfOne(table, ds[last]);
      EdgesAreCounted(table, ds[..last]);
    } else {
      EdgeOfEvent(table, ds[..last], i);
    }
  }

  /** An event or an unknown datapoint leaves the store alone; any other is one report on its attribute. */
  lemma RoutedIsOneReport(table: Table, s: Store, d: Datapoint)
    requires Bound(table, s) && (d.key in table ==> table[d.key].bits == Pow2(table[d.key].attr))
    ensures d.key !in table || table[d.key].kind.EventAttr? ==> Routed(table, s, d) == s
    ensures d.key in table && table[d.key].kind.StateAttr? ==>
              var t, b := Routed(table, s, d), table[d.key];
              && OnlyTouches(s, t, b.entity, b.attr) && !t.Unconfirmed(b.entity, b.attr)
              && Same(t.values[b.entity][b.attr], b.decode(d.raw))
  {
    if d.key in table {
      var b := table[d.key];
      ReportTouchesOneAttribute(s, b.entity, b.attr, b.decode(d.raw));
    }
    hide Applied, OnlyTouches, Same;
  }

  class Router {
    const table: Table
    const state: StateStore
    var scheduled: seq<Edge>

    constructor (table: Table, state: StateStore)
      ensures this.table == table && this.state == state && scheduled == []
    {
      this.table, this.state, scheduled := table, state, [];
    }

    method ProcessDatapoint(d: Datapoint)
      requires Bound(table, state.Model())
      modifies this, state
      ensures state.Model() == Routed(table, old(state.Model()), d)
      ensures scheduled == old(scheduled) + Edges(table, [d])
    {
      if d.key in table {
        var b := table[d.key];
        var value := b.decode(d.raw);
        if b.kind.EventAttr? {
          scheduled := scheduled + [Edge(b.entity, b.attr, value)];
        } else {
          var changed := state.Apply(b.entity, b.attr, value, b.bits);
        }
      }
    }

    method ProcessFrame(body: Frame)
      requires Bound(table, state.Model())
      modifies this, state
      ensures state.Model() == RoutedAll(table, old(state.Model()), body)
      ensures scheduled == old(scheduled) + Edges(table, body)
    {
      hide Routed;
      for i := 0 to |body|
        invariant Bound(table, state.Model())
        invariant RoutedAll(table, old(state.Model()), body) == RoutedAll(table, state.Model(), body[i..])
        invariant old(scheduled) + Edges(table, body) == scheduled + Edges(table, body[i..])
      {
        var rest := body[i..];
        assert rest[0] == body[i] && rest[1..] == body[i + 1..];
        EdgesOfOne(table, rest);
        ghost var before := scheduled;
        ProcessDatapoint(body[i]);
        assert before + (Edges(table, [rest[0]]) + Edges(table, rest[1..])) == scheduled + Edges(table, rest[1..]);
      }
    }
  }

  lemma EdgesOfOne(table: Table, ds: seq<Datapoint>)
    requires ds != []
    ensures Edges(table, ds) == Edges(table, [ds[0]]) + Edges(table, ds[1..])
  {
    assert [ds[0]][1..] == [];
  }

  function ProcessedAll(table: Table, s: Store, frames: seq<Frame>): (t: Store)
    requires Bound(table, s)
    ensures Bound(table, t)
    decreases |frames|
  {
    if frames == [] then s else ProcessedAll(table, RoutedAll(table, s, frames[0]), frames[1..])
  }

  lemma {:induction false} RoutedConcat(table: Table, s: Store, a: seq<Datapoint>, b: seq<Datapoint>)
    requires Bound(table, s)
    ensures RoutedAll(table, s, a + b) == RoutedAll(table, RoutedAll(table, s, a), b)
    decreases |a|
  {
    if a == [] {
      assert a + b == b;
    } else {
      assert (a + b)[1..] == a[1..] + b;
      RoutedConcat(table, Routed(table, s, a[0]), a[1..], b);
    }
  }

  lemma {:induction false} FramesAreOneStream(table: Table, s: Store, frames: seq<Frame>)
    requires Bound(table, s)
    ensures ProcessedAll(table, s, frames) == RoutedAll(table, s, Flatten(frames))
    decreases |frames|
  {
    if frames != [] {
      RoutedConcat(table, s, frames[0], Flatten(frames[1..]));
      FramesAreOneStream(table, RoutedAll(table, s, frames[0]), frames[1..]);
    }
  }

  // ---------------------------------------------------------------- snapshot and replay

  /** The raw value of a datapoint at the SysAP after the writes of `history`; absent means empty. */
  function RawAt(first: map<string, string>, history: seq<Datapoint>, key: string): string
    decreases |history|
  {
    if history == [] then if key in first then first[key] else ""
    else if history[|history| - 1].key == key then history[|history| - 1].raw
    else RawAt(first, history[..|history| - 1], key)
  }

  predicate OwnAttributes(table: Table) {
    forall j, k :: j in table && k in table && j != k ==>
      (table[j].entity, table[j].attr) != (table[k].entity, table[k].attr)
  }

  /** The store's value of a datapoint's attribute is the decoded value of that raw text. */
  predicate Shows(table: Table, s: Store, key: string, raw: string)
    requires Bound(table, s) && key in table
  {
    Same(s.values[table[key].entity][table[key].attr], table[key].decode(raw))
  }

  /** Every STATE attribute shows what the SysAP holds after `history`. */
  ghost predicate Reflects(table: Table, s: Store, first: map<string, string>, history: seq<Datapoint>) {
    Bound(table, s) &&
    forall k :: k in table && table[k].kind.StateAttr? ==> Shows(table, s, k, RawAt(first, history, k))
  }

  predicate Writes(ds: seq<Datapoint>, key: string) {
    exists i :: 0 <= i < |ds| && ds[i].key == key
  }

  lemma RoutedShows(table: Table, s: Store, d: Datapoint, key: string, raw: string)
    requires Bound(table, s) && OwnAttributes(table) && key in table && table[key].kind.StateAttr?
    ensures d.key == key ==> Shows(table, Routed(table, s, d), key, d.raw)
    ensures d.key != key && Shows(table, s, key, raw) ==> Shows(table, Routed(table, s, d), key, raw)
  {
  }

  /** The last write of a datapoint wins, whatever was replayed before it. */
  lemma {:induction false} LastWriteWins(
    table: Table, s: Store, ds: seq<Datapoint>, key: string, first: map<string, string>, before: seq<Datapoint>,
      raw: string)
    requires Bound(table, s) && OwnAttributes(table) && key in table && table[key].kind.StateAttr?
    requires Shows(table, s, key, raw)
    ensures Shows(table, RoutedAll(table, s, ds), key, if Writes(ds, key) then RawAt(first, before + ds, key) else raw)
    decreases |ds|
  {
    if ds != [] {
      var d := ds[0];
      assert before + ds == (before + [d]) + ds[1..];
      RoutedShows(table, s, d, key, raw);
      var now := if d.key == key then d.raw else raw;
      LastWriteWins(table, Routed(table, s, d), ds[1..], key, first, before + [d], now);
      assert ds == [d] + ds[1..];
      if d.key == key {
        assert ds[0].key == key;
        if !Writes(ds[1..], key) {
          UnwrittenKeepsRaw(first, before + [d], ds[1..], key);
        }
      } else {
        assert Writes(ds[1..], key) <==> Writes(ds, key) by {
          if Writes(ds[1..], key) {
            var i :| 0 <= i < |ds[1..]| && ds[1..][i].key == key;
            assert ds[i + 1].key == key;
          }
          if Writes(ds, key) {
            var i :| 0 <= i < |ds| && ds[i].key == key;
            assert ds[1..][i - 1].key == key;
          }
        }
      }
    }
  }

  lemma {:induction false} UnwrittenKeepsRaw(first: map<string, string>, before: seq<Datapoint>, ds: seq<Datapoint>,
      key: string)
    requires !Writes(ds, key)
    ensures RawAt(first, before + ds, key) == RawAt(first, before, key)
    decreases |ds|
  {
    if ds == [] {
      assert before + ds == before;
    } else {
      var last := |ds| - 1;
      assert (before + ds)[..|before + ds| - 1] == before + ds[..last];
      assert ds[last].key != key;
      UnwrittenKeepsRaw(first, before, ds[..last], key);
    }
  }

  lemma WriteInTail(history: seq<Datapoint>, b: nat, s: nat, key: string)
    requires b <= s <= |history| && Writes(history[s..], key)
    ensures Writes(history[b..], key)
  {
    var i :| 0 <= i < |history[s..]| && history[s..][i].key == key;
    assert history[b..][i + s - b] == history[s..][i];
  }

  /**
   Buffer from write `b`, fetch a snapshot at write `s`, replay the buffer up to now. With `b <= s` the
   writes between are replayed over a snapshot that is newer than they are, and it does not matter.
   */
  lemma ReplayIsExact(table: Table, store: Store, first: map<string, string>, history: seq<Datapoint>, b: nat, s: nat)
    requires b <= s <= |history| && OwnAttributes(table)
    requires Reflects(table, store, first, history[..s])
    ensures Reflects(table, RoutedAll(table, store, history[b..]), first, history)
  {
    hide RawAt, Writes, RoutedAll, Same, OwnAttributes;
    forall k | k in table && table[k].kind.StateAttr?
      ensures Shows(table, RoutedAll(table, store, history[b..]), k, RawAt(first, history, k))
    {
      LastWriteWins(table, store, history[b..], k, first, history[..b], RawAt(first, history[..s], k));
      assert history[..b] + history[b..] == history && history[..s] + history[s..] == history;
      if !Writes(history[b..], k) {
        if Writes(history[s..], k) {
          WriteInTail(history, b, s, k);
        }
        UnwrittenKeepsRaw(first, history[..s], history[s..], k);
      }
    }
  }

  /** The same for the frames the reader buffered between arming and draining. */
  lemma DrainedBufferIsExact(
    table: Table, store: Store, first: map<string, string>, history: seq<Datapoint>, b: nat, s: nat,
    reader: Reader, ms: seq<Message>)
    requires b <= s <= |history| && OwnAttributes(table)
    requires Reflects(table, store, first, history[..s])
    requires !Overflows(StartedBuffering(reader), ms)
    requires Flatten(Taken(reader, ms)) == history[b..]
    ensures var frames := DispatchedAll(StartedBuffering(reader), ms).buffer;
            Reflects(table, ProcessedAll(table, store, frames), first, history)
  {
    BufferKeepsEverything(StartedBuffering(reader), ms);
    TakenIgnoresBuffer(reader, StartedBuffering(reader), ms);
    FramesAreOneStream(table, store, Taken(reader, ms));
    assert [] + Taken(reader, ms) == Taken(reader, ms);
    ReplayIsExact(table, store, first, history, b, s);
  }

  /**
   For any order of fetching and arming: the replay is exact exactly if every datapoint that the replayed
   writes leave alone had, at the fetch, a raw value that decodes to the same as its latest one.
   */
  lemma ReplayIsExactIff(
    table: Table, store: Store, first: map<string, string>, history: seq<Datapoint>, b: nat, s: nat)
    requires b <= |history| && s <= |history| && OwnAttributes(table)
    requires Reflects(table, store, first, history[..s])
    ensures Reflects(table, RoutedAll(table, store, history[b..]), first, history) <==>
            forall k :: k in table && table[k].kind.StateAttr? && !Writes(history[b..], k) ==>
              Same(table[k].decode(RawAt(first, history[..s], k)), table[k].decode(RawAt(first, history, k)))
  {
    var end := RoutedAll(table, store, history[b..]);
    forall k | k in table && table[k].kind.StateAttr?
      ensures Shows(table, end, k, RawAt(first, history, k)) <==>
              Writes(history[b..], k) ||
              Same(table[k].decode(RawAt(first, history[..s], k)), table[k].decode(RawAt(first, history, k)))
    {
      LastWriteWins(table, store, history[b..], k, first, history[..b], RawAt(first, history[..s], k));
      assert history[..b] + history[b..] == history;
      hide RawAt, Writes, RoutedAll, Same;
      SameIsEuclidean(end.values[table[k].entity][table[k].attr],
        table[k].decode(if Writes(history[b..], k) then RawAt(first, history, k) else RawAt(first, history[..s], k)),
        table[k].decode(RawAt(first, history, k)));
    }
    hide RawAt, Writes, RoutedAll, Same, Shows;
  }

  /** One write that only happens between the snapshot and the arming of the buffer. */
  function MissedWrite(n: nat, s: nat, key: string, raw: string, unbound: string): (history: seq<Datapoint>)
    ensures |history| == n
  {
    seq(n, i => if i == s then Datapoint(key, raw) else Datapoint(unbound, ""))
  }

  lemma {:induction false} UnboundIsNoise(table: Table, s: Store, ds: seq<Datapoint>)
    requires Bound(table, s) && forall i :: 0 <= i < |ds| ==> ds[i].key !in table
    ensures RoutedAll(table, s, ds) == s
    decreases |ds|
  {
    if ds != [] {
      UnboundIsNoise(table, s, ds[1..]);
    }
  }

  /**
   A configuration fetched before the buffer is armed, as the periodic refresher does, can miss a
   write: for every `s < b` there is a history after which the replay leaves a stale value.
   */
  lemma LateBufferMissesAWrite(
    table: Table, store: Store, n: nat, b: nat, s: nat, key: string, former: string, latter: string, unbound: string)
    requires s < b <= n && key in table && table[key].kind.StateAttr? && unbound !in table && Bound(table, store)
    requires !Same(table[key].decode(former), table[key].decode(latter))
    requires Reflects(table, store, map[key := former], [])
    ensures var history := MissedWrite(n, s, key, latter, unbound);
            && Reflects(table, store, map[key := former], history[..s])
            && !Reflects(table, RoutedAll(table, store, history[b..]), map[key := former], history)
  {
    var first, history := map[key := former], MissedWrite(n, s, key, latter, unbound);
    forall k | k in table ensures RawAt(first, history[..s], k) == RawAt(first, [], k) {
      MissedWriteRaw(first, n, s, key, latter, unbound, k);
    }
    MissedWriteRaw(first, n, s, key, latter, unbound, key);
    UnboundIsNoise(table, store, history[b..]);
    assert Shows(table, store, key, RawAt(first, [], key));
    hide RawAt, RoutedAll, MissedWrite;
    SameIsEuclidean(store.values[table[key].entity][table[key].attr], table[key].decode(former),
        table[key].decode(latter));
  }

  lemma MissedWriteRaw(first: map<string, string>, n: nat, s: nat, key: string, raw: string, unbound: string, k: string)
    requires s < n && k != unbound && key != unbound
    ensures var history := MissedWrite(n, s, key, raw, unbound);
            RawAt(first, history[..s], k) == RawAt(first, [], k) && RawAt(first, history, key) == raw
  {
    var history := MissedWrite(n, s, key, raw, unbound);
    var early, upTo, late := history[..s], history[..s + 1], history[s + 1..];
    assert !Writes(early, k) && !Writes(late, key);
    assert upTo[..s] == early && upTo[s] == Datapoint(key, raw);
    assert RawAt(first, upTo, key) == raw;
    hide RawAt, MissedWrite;
    assert [] + early == early && history == upTo + late;
    UnwrittenKeepsRaw(first, [], early, k);
    UnwrittenKeepsRaw(first, upTo, late, key);
  }

  lemma SameIsEuclidean(a: Json, b: Json, c: Json)
    requires Same(a, b)
    ensures Same(a, c) <==> Same(b, c)
  {
  }
}
