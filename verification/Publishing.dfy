/**
 Payloads and the delta publisher of `bus/publisher.py`. The broker is the map of its retained
 messages; a publish puts one entry into it or raises because the connection is gone.
 */
module Publishing {
  import opened Wrappers
  import opened Values
  import opened State

  type Retained = map<string, Payload>

  // ---------------------------------------------------------------- payloads

  function Fields(names: seq<string>, kinds: seq<Kind>, values: seq<Json>): Payload
    requires |names| == |kinds| == |values|
  {
    if names == [] then map[]
    else
      (if kinds[0].EventAttr? then map[] else map[names[0] := values[0]]) +
      Fields(names[1..], kinds[1..], values[1..])
  }

  /** The composite attribute of a transformed entity; `None` where indexing the values raises. */
  function Derive(t: Transform, values: seq<Json>): Option<Payload> {
    match t
    case RoomTemperatureController =>
      if |values| < 3 then None
      else if !Truthy(values[0]) then Some(map["hvac_mode" := Str("off")])
      else if Truthy(values[1]) then Some(map["hvac_mode" := Str("eco")])
      else Some(map["hvac_mode" := values[2]])
    case CoverWithSlats =>
      if |values| < 2 then None
      else Some(map["slat_position" := if Same(values[0], Int(100)) then Null else values[1]])
  }

  /** The entity's complete state: its id, every STATE attribute, and what its transform derives. */
  function PayloadOf(entity: Entity, values: seq<Json>): Option<Payload>
    requires entity.Valid() && |values| == |entity.attrNames|
  {
    var plain := map["id" := Str(entity.id)] + Fields(entity.attrNames, entity.attrKinds, values);
    if entity.transform.None? then Some(plain)
    else
      var derived := Derive(entity.transform.value, values);
      if derived.None? then None else Some(plain + derived.value)
  }

  // ---------------------------------------------------------------- what a payload is

  /** Attribute `i` is the last STATE attribute of its name. */
  predicate Shown(entity: Entity, i: nat)
    requires entity.Valid() && i < |entity.attrNames|
  {
    entity.attrKinds[i].StateAttr? &&
    forall j :: i < j < |entity.attrNames| && entity.attrKinds[j].StateAttr? ==>
      entity.attrNames[j] != entity.attrNames[i]
  }

  predicate HasState(names: seq<string>, kinds: seq<Kind>, name: string)
    requires |names| == |kinds|
  {
    exists i :: 0 <= i < |names| && names[i] == name && kinds[i].StateAttr?
  }

  lemma {:induction false} FieldsAreStates(names: seq<string>, kinds: seq<Kind>, values: seq<Json>, name: string)
    requires |names| == |kinds| == |values|
    ensures name in Fields(names, kinds, values) <==> HasState(names, kinds, name)
  {
    if names != [] {
      FieldsAreStates(names[1..], kinds[1..], values[1..], name);
      if HasState(names[1..], kinds[1..], name) {
        var i :| 0 <= i < |names[1..]| && names[1..][i] == name && kinds[1..][i].StateAttr?;
        assert names[i + 1] == name && kinds[i + 1].StateAttr?;
      }
      if HasState(names, kinds, name) {
        var i :| 0 <= i < |names| && names[i] == name && kinds[i].StateAttr?;
        assert i > 0 ==> names[1..][i - 1] == name && kinds[1..][i - 1].StateAttr?;
      }
    }
  }

  lemma {:induction false} FieldOfLast(names: seq<string>, kinds: seq<Kind>, values: seq<Json>, i: nat)
    requires |names| == |kinds| == |values| && i < |names| && kinds[i].StateAttr?
    requires forall j :: i < j < |names| && kinds[j].StateAttr? ==> names[j] != names[i]
    ensures names[i] in Fields(names, kinds, values) && Fields(names, kinds, values)[names[i]] == values[i]
  {
    if i > 0 {
      FieldOfLast(names[1..], kinds[1..], values[1..], i - 1);
    } else {
      FieldsAreStates(names[1..], kinds[1..], values[1..], names[0]);
      forall j | 0 <= j < |names[1..]| && kinds[1..][j].StateAttr? ensures names[1..][j] != names[0] {
        assert kinds[j + 1].StateAttr?;
      }
    }
  }

  /** The attribute that a transform adds. */
  predicate Derives(entity: Entity, name: string) {
    || (entity.transform == Some(RoomTemperatureController) && name == "hvac_mode")
    || (entity.transform == Some(CoverWithSlats) && name == "slat_position")
  }

  /** A payload's keys: `id`, the STATE attributes, no EVENT attribute of its own, and what a transform derives. */
  lemma PayloadKeys(entity: Entity, values: seq<Json>, name: string)
    requires entity.Valid() && |values| == |entity.attrNames|
    ensures PayloadOf(entity, values).Some? <==>
            match entity.transform
            case None => true
            case Some(RoomTemperatureController) => |values| >= 3
            case Some(CoverWithSlats) => |values| >= 2
    ensures PayloadOf(entity, values).Some? ==>
              (name in PayloadOf(entity, values).value <==>
               name == "id" || HasState(entity.attrNames, entity.attrKinds, name) || Derives(entity, name))
  {
    FieldsAreStates(entity.attrNames, entity.attrKinds, values, name);
    hide Fields, HasState, Truthy, Same;
  }

  /** Its values: the id, and each STATE attribute's own, unless something of that name overrides it. */
  lemma PayloadShows(entity: Entity, values: seq<Json>, i: nat)
    requires entity.Valid() && |values| == |entity.attrNames| && PayloadOf(entity, values).Some?
    ensures var p := PayloadOf(entity, values).value;
            !HasState(entity.attrNames, entity.attrKinds, "id") ==> "id" in p && p["id"] == Str(entity.id)
    ensures i < |values| && Shown(entity, i) && !Derives(entity, entity.attrNames[i]) ==>
              var p := PayloadOf(entity, values).value;
              entity.attrNames[i] in p && p[entity.attrNames[i]] == values[i]
  {
    FieldsAreStates(entity.attrNames, entity.attrKinds, values, "id");
    if i < |values| && Shown(entity, i) {
      FieldOfLast(entity.attrNames, entity.attrKinds, values, i);
    }
    hide Fields, HasState, Truthy, Same;
  }

  /** A controller that is off is `off`, else `eco` in eco mode, else in the mode it reports. */
  lemma ControllerShowsMode(entity: Entity, values: seq<Json>)
    requires entity.Valid() && |values| == |entity.attrNames| && |values| >= 3
    requires entity.transform == Some(RoomTemperatureController)
    ensures var p := PayloadOf(entity, values);
            && p.Some? && "hvac_mode" in p.value
            && p.value["hvac_mode"] ==
               if !Truthy(values[0]) then Str("off") else if Truthy(values[1]) then Str("eco") else values[2]
  {
    hide Fields, Truthy;
  }

  /** The slats of a fully open cover have no position of their own. */
  lemma CoverShowsSlats(entity: Entity, values: seq<Json>)
    requires entity.Valid() && |values| == |entity.attrNames| && |values| >= 2
    requires entity.transform == Some(CoverWithSlats)
    ensures var p := PayloadOf(entity, values);
            && p.Some? && "slat_position" in p.value
            && p.value["slat_position"] == if Same(values[0], Int(100)) then Null else values[1]
  {
    hide Fields, Same;
  }

  lemma {:induction false} FieldsRespectSame(names: seq<string>, kinds: seq<Kind>, v: seq<Json>, w: seq<Json>)
    requires |names| == |kinds| == |v| && SameSeq(v, w)
    ensures Similar(Fields(names, kinds, v), Fields(names, kinds, w))
  {
    if names != [] {
      FieldsRespectSame(names[1..], kinds[1..], v[1..], w[1..]);
    }
  }

  lemma DeriveRespectsSame(t: Transform, v: seq<Json>, w: seq<Json>)
    requires SameSeq(v, w)
    ensures Derive(t, v).Some? == Derive(t, w).Some?
    ensures Derive(t, v).Some? ==> Similar(Derive(t, v).value, Derive(t, w).value)
  {
    assert |v| > 0 ==> Same(v[0], w[0]);
    assert |v| > 1 ==> Same(v[1], w[1]);
    assert |v| > 2 ==> Same(v[2], w[2]);
  }

  lemma SimilarUnion(p: Payload, q: Payload, r: Payload, s: Payload)
    requires Similar(p, q) && Similar(r, s)
    ensures Similar(p + r, q + s)
  {
    assert (p + r).Keys == (q + s).Keys;
  }

  /** Values that compare equal give payloads that do. */
  lemma PayloadRespectsSame(entity: Entity, v: seq<Json>, w: seq<Json>)
    requires entity.Valid() && |v| == |entity.attrNames| && SameSeq(v, w)
    ensures PayloadOf(entity, v).Some? == PayloadOf(entity, w).Some?
    ensures PayloadOf(entity, v).Some? ==> Similar(PayloadOf(entity, v).value, PayloadOf(entity, w).value)
  {
    FieldsRespectSame(entity.attrNames, entity.attrKinds, v, w);
    var id := map["id" := Str(entity.id)];
    var p, q := Fields(entity.attrNames, entity.attrKinds, v), Fields(entity.attrNames, entity.attrKinds, w);
    SimilarUnion(id, id, p, q);
    if entity.transform.Some? {
      DeriveRespectsSame(entity.transform.value, v, w);
      if Derive(entity.transform.value, v).Some? {
        SimilarUnion(id + p, id + q, Derive(entity.transform.value, v).value, Derive(entity.transform.value, w).value);
      }
    }
  }

  // ---------------------------------------------------------------- flush

  /** The indices below `n` that are in `s`, in ascending order. */
  function Ascending(s: set<nat>, n: nat): (order: seq<nat>)
    ensures forall i :: i in order <==> i in s && i < n
    ensures InRange(order, n)
  {
    if n == 0 then [] else Ascending(s, n - 1) + (if n - 1 in s then [n - 1] else [])
  }

  lemma {:induction false} AscendingIsInOrder(s: set<nat>, n: nat)
    ensures forall i, j :: 0 <= i < j < |Ascending(s, n)| ==> Ascending(s, n)[i] < Ascending(s, n)[j]
  {
    if n > 0 {
      AscendingIsInOrder(s, n - 1);
    }
  }

  /** The state of a flush that publishes without interruption until it ends or a publish raises. */
  datatype Flush = Flush(dirty: set<nat>, retained: Retained, published: nat, credit: nat, raised: bool)

  predicate Ready(entities: seq<Entity>, values: seq<seq<Json>>) {
    && |values| == |entities|
    && forall i :: 0 <= i < |entities| ==> entities[i].Valid() && |values[i]| == |entities[i].attrNames|
  }

  predicate InRange(order: seq<nat>, n: nat) {
    forall k :: 0 <= k < |order| ==> order[k] < n
  }

  function Flushed(entities: seq<Entity>, values: seq<seq<Json>>, order: seq<nat>, f: Flush): Flush
    requires Ready(entities, values) && InRange(order, |entities|)
    decreases |order|
  {
    if order == [] then f
    else
      var payload := PayloadOf(entities[order[0]], values[order[0]]);
      if payload.None? || f.credit == 0 then f.(raised := true)
      else
        Flushed(entities, values, order[1..],
          Flush(f.dirty - {order[0]}, f.retained[entities[order[0]].stateTopic := payload.value],
                f.published + 1, f.credit - 1, false))
  }

  /** Publish `k` of the flush is possible: a payload can be built, and the connection accepts it. */
  predicate Goes(entities: seq<Entity>, values: seq<seq<Json>>, order: seq<nat>, credit: nat, k: nat)
    requires Ready(entities, values) && InRange(order, |entities|) && k < |order|
  {
    k < credit && PayloadOf(entities[order[k]], values[order[k]]).Some?
  }

  /** How many publishes succeed: all before the first that is not possible. */
  ghost predicate StopsAfter(entities: seq<Entity>, values: seq<seq<Json>>, order: seq<nat>, credit: nat, k: nat)
    requires Ready(entities, values) && InRange(order, |entities|)
  {
    && k <= |order| && (forall j :: 0 <= j < k ==> Goes(entities, values, order, credit, j))
    && (k < |order| ==> !Goes(entities, values, order, credit, k))
  }

  /** A flush takes the marks of what it published, leaves all others dirty, and raises if it did not get through. */
  lemma {:induction false} FlushStops(
    entities: seq<Entity>, values: seq<seq<Json>>, order: seq<nat>, f: Flush, k: nat)
    requires Ready(entities, values) && InRange(order, |entities|) && !f.raised
    requires StopsAfter(entities, values, order, f.credit, k)
    ensures var g := Flushed(entities, values, order, f);
            && (g.raised <==> k < |order|) && g.credit == f.credit - k && g.published == f.published + k
            && (forall i :: i in g.dirty <==> i in f.dirty && i !in order[..k])
            && (forall t :: (forall j :: 0 <= j < k ==> entities[order[j]].stateTopic != t) ==>
                  (t in g.retained <==> t in f.retained) && (t in f.retained ==> g.retained[t] == f.retained[t]))
    decreases |order|
  {
    hide PayloadOf;
    if k > 0 {
      assert Goes(entities, values, order, f.credit, 0);
      var idx := order[0];
      var payload := PayloadOf(entities[idx], values[idx]).value;
      var next := Flush(f.dirty - {idx}, f.retained[entities[idx].stateTopic := payload],
                        f.published + 1, f.credit - 1, false);
      LaterPublishesGo(entities, values, order, f.credit, k);
      FlushStops(entities, values, order[1..], next, k - 1);
      assert order[..k] == [idx] + order[1..][..k - 1];
      hide Ready;
    }
  }

  /** The broker holds what was published, however the flush ended. */
  lemma {:induction false} FlushShows(
    entities: seq<Entity>, values: seq<seq<Json>>, order: seq<nat>, f: Flush, k: nat, j: nat)
    requires Ready(entities, values) && InRange(order, |entities|) && !f.raised
    requires StopsAfter(entities, values, order, f.credit, k) && j < k
    requires forall l :: j < l < k ==> entities[order[l]].stateTopic != entities[order[j]].stateTopic
    ensures var g, topic := Flushed(entities, values, order, f), entities[order[j]].stateTopic;
            topic in g.retained && PayloadOf(entities[order[j]], values[order[j]]) == Some(g.retained[topic])
    decreases |order|
  {
    hide PayloadOf;
    assert Goes(entities, values, order, f.credit, 0);
    var idx := order[0];
    var payload := PayloadOf(entities[idx], values[idx]).value;
    var next := Flush(f.dirty - {idx}, f.retained[entities[idx].stateTopic := payload],
                      f.published + 1, f.credit - 1, false);
    LaterPublishesGo(entities, values, order, f.credit, k);
    if j > 0 {
      FlushShows(entities, values, order[1..], next, k - 1, j - 1);
    } else {
      FlushStops(entities, values, order[1..], next, k - 1);
      assert forall l :: 0 <= l < k - 1 ==> order[1..][l] == order[l + 1];
    }
  }

  lemma LaterPublishesGo(entities: seq<Entity>, values: seq<seq<Json>>, order: seq<nat>, credit: nat, k: nat)
    requires Ready(entities, values) && InRange(order, |entities|) && 0 < k && credit > 0
    requires StopsAfter(entities, values, order, credit, k)
    ensures InRange(order[1..], |entities|) && StopsAfter(entities, values, order[1..], credit - 1, k - 1)
  {
    hide PayloadOf;
    var rest, left := order[1..], credit - 1;
    forall j | 0 <= j < k - 1 ensures Goes(entities, values, rest, left, j) {
      assert Goes(entities, values, order, credit, j + 1);
    }
  }

  /** The connection: it accepts `credit` more publishes and then raises. */
  class Broker {
    var retained: Retained
    var credit: nat

    method Publish(topic: string, payload: Payload) returns (ok: bool)
      modifies this
      ensures ok <==> old(credit) > 0
      ensures credit == if ok then old(credit) - 1 else old(credit)
      ensures retained == if ok then old(retained)[topic := payload] else old(retained)
    {
      if credit == 0 {
        return false;
      }
      retained := retained[topic := payload];
      credit := credit - 1;
      ok := true;
    }

    /** A retained publish of zero bytes removes the entry (section 3.3.1.3 of MQTT 3.1.1). */
    method Clear(topic: string) returns (ok: bool)
      modifies this
      ensures ok <==> old(credit) > 0
      ensures credit == if ok then old(credit) - 1 else old(credit)
      ensures retained == if ok then old(retained) - {topic} else old(retained)
    {
      if credit == 0 {
        return false;
      }
      retained := retained - {topic};
      credit := credit - 1;
      ok := true;
    }
  }

  class Publisher {
    const entities: seq<Entity>
    const state: StateStore
    const mqtt: Broker
    var publishCount: nat

    constructor (entities: seq<Entity>, state: StateStore, mqtt: Broker)
      ensures this.entities == entities && this.state == state && this.mqtt == mqtt && publishCount == 0
    {
      this.entities, this.state, this.mqtt := entities, state, mqtt;
      publishCount := 0;
    }

    ghost predicate Valid()
      reads this, state
    {
      Ready(entities, state.values) && state.Model().Fits(entities)
    }

    method BuildPayload(idx: nat) returns (payload: Option<Payload>)
      requires Valid() && idx < |entities|
      ensures payload == PayloadOf(entities[idx], state.values[idx])
    {
      var entity, values := entities[idx], state.values[idx];
      var built: Payload := map["id" := Str(entity.id)];
      for i := 0 to |entity.attrNames|
        invariant map["id" := Str(entity.id)] + Fields(entity.attrNames, entity.attrKinds, values) ==
                  built + Fields(entity.attrNames[i..], entity.attrKinds[i..], values[i..])
      {
        FieldsFrom(built, entity.attrNames, entity.attrKinds, values, i);
        if entity.attrKinds[i].EventAttr? {
          continue;
        }
        built := built[entity.attrNames[i] := values[i]];
      }
      assert built + map[] == built;
      if entity.transform.None? {
        return Some(built);
      }
      var derived := Derive(entity.transform.value, values);
      payload := if derived.None? then None else Some(built + derived.value);
    }

    /** One round of the flush: the mark goes only after the publish has succeeded. */
    method PublishOne(idx: nat) returns (ok: bool)
      requires Valid() && idx < |entities|
      modifies this`publishCount, state`dirty, mqtt
      ensures Valid()
      ensures ok <==> old(mqtt.credit) > 0 && PayloadOf(entities[idx], state.values[idx]).Some?
      ensures !ok ==> Progress(!ok) == old(Progress(true))
      ensures ok ==>
                var payload := PayloadOf(entities[idx], state.values[idx]).value;
                Progress(false) == Flush(
                  old(state.dirty) - {idx}, old(mqtt.retained)[entities[idx].stateTopic := payload],
                  old(publishCount) + 1, old(mqtt.credit) - 1, false)
    {
      var payload := BuildPayload(idx);
      if payload.None? {
        return false;
      }
      ok := mqtt.Publish(entities[idx].stateTopic, payload.value);
      if ok {
        state.dirty := state.dirty - {idx};
        publishCount := publishCount + 1;
      }
    }

    ghost function Progress(raised: bool): Flush
      reads this, state, mqtt
    {
      Flush(state.dirty, mqtt.retained, publishCount, mqtt.credit, raised)
    }

    method FlushDirty() returns (ok: bool)
      requires Valid()
      modifies this`publishCount, state`dirty, mqtt
      ensures Progress(!ok) ==
              Flushed(entities, old(state.values), Ascending(old(state.dirty), |entities|), old(Progress(false)))
    {
      hide PayloadOf;
      var order := Ascending(state.dirty, |entities|);
      ghost var start := Progress(false);
      for i := 0 to |order|
        invariant Valid()
        invariant Flushed(entities, state.values, order, start) ==
                  Flushed(entities, state.values, order[i..], Progress(false))
      {
        assert order[i..][0] == order[i] && order[i..][1..] == order[i + 1..];
        var sent := PublishOne(order[i]);
        if !sent {
          return false;
        }
      }
      ok := true;
    }
  }

  lemma FieldsFrom(built: Payload, names: seq<string>, kinds: seq<Kind>, values: seq<Json>, i: nat)
    requires |names| == |kinds| == |values| && i < |names|
    ensures built + Fields(names[i..], kinds[i..], values[i..]) ==
            (if kinds[i].EventAttr? then built else built[names[i] := values[i]]) +
            Fields(names[i + 1..], kinds[i + 1..], values[i + 1..])
  {
    assert names[i..][1..] == names[i + 1..] && kinds[i..][1..] == kinds[i + 1..] &&
           values[i..][1..] == values[i + 1..];
    var rest := Fields(names[i + 1..], kinds[i + 1..], values[i + 1..]);
    assert built + (map[names[i] := values[i]] + rest) == built[names[i] := values[i]] + rest;
    assert built + (map[] + rest) == built + rest;
  }
}
