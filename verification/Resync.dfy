/**
 The resync of `supervisor.py`: seed a new store from the fetched configuration, mark what differs from
 the live values, retract what is gone, replay the buffered frames, and publish only what is dirty.
 */
module Resync {
  import opened Lists
  import opened Wrappers
  import opened Values
  import opened State
  import opened Publishing
  import opened Interleaving
  import opened Ingress

  /** What a resync uses of a compiled model. */
  datatype Compiled = Compiled(
    entities: seq<Entity>,
    byId: map<string, nat>,
    table: Table,
    initial: seq<seq<Json>>)
  {
    ghost predicate Consistent() {
      && Ready(entities, initial) && DistinctTopics(entities)
      && (forall i :: 0 <= i < |entities| ==> entities[i].id in byId && byId[entities[i].id] == i)
      && (forall id :: id in byId ==> byId[id] < |entities| && entities[byId[id]].id == id)
      && Bound(table, Seeded(this))
    }
  }

  function Seeded(m: Compiled): Store {
    Store(m.initial, seq(|m.initial|, _ => 0), {}, false)
  }

  datatype World = World(model: Compiled, store: Store, retained: Retained)

  // ---------------------------------------------------------------- the steps

  /** New entities, and entities whose live values are not the fetched ones. */
  predicate Differs(w: World, next: Compiled, id: string)
    requires id in next.byId && next.byId[id] < |next.initial|
    requires id in w.model.byId ==> w.model.byId[id] < |w.store.values|
  {
    id !in w.model.byId || !SameSeq(w.store.values[w.model.byId[id]], next.initial[next.byId[id]])
  }

  predicate Comparable(w: World, next: Compiled) {
    && (forall id :: id in next.byId ==> next.byId[id] < |next.initial|)
    && (forall id :: id in w.model.byId ==>
          w.model.byId[id] < |w.store.values| && w.model.byId[id] < |w.model.entities|)
  }

  function Diff(w: World, next: Compiled): set<nat>
    requires Comparable(w, next)
  {
    set id | id in next.byId && Differs(w, next, id) :: next.byId[id]
  }

  function TopicsOf(e: Entity): set<string> {
    {e.stateTopic} + if e.availabilityTopic.Some? then {e.availabilityTopic.value} else {}
  }

  function RemovedTopics(w: World, ids: set<string>): set<string>
    requires forall id :: id in ids ==> id in w.model.byId && w.model.byId[id] < |w.model.entities|
  {
    set id, t | id in ids && t in TopicsOf(w.model.entities[w.model.byId[id]]) :: t
  }

  function Diffed(w: World, next: Compiled): World
    requires Comparable(w, next)
  {
    World(next, Seeded(next).(dirty := Diff(w, next)),
        w.retained - RemovedTopics(w, w.model.byId.Keys - next.byId.Keys))
  }

  /** After the drained frames have been processed. */
  function Replayed(w: World, next: Compiled, frames: seq<Frame>): World
    requires Comparable(w, next) && Bound(next.table, Seeded(next))
  {
    var d := Diffed(w, next);
    d.(store := ProcessedAll(next.table, d.store, frames))
  }

  /** The flush of everything dirty over a connection that accepts `credit` publishes. */
  function FlushOf(w: World, credit: nat): Flush
    requires Ready(w.model.entities, w.store.values)
  {
    Flushed(w.model.entities, w.store.values, Ascending(w.store.dirty, |w.model.entities|),
      Flush(w.store.dirty, w.retained, 0, credit, false))
  }

  function Settled(w: World, f: Flush): World {
    w.(store := w.store.(dirty := f.dirty), retained := f.retained)
  }

  // ---------------------------------------------------------------- what a flush leaves

  /** The flush after its first publish. */
  lemma FlushGoesOn(entities: seq<Entity>, values: seq<seq<Json>>, order: seq<nat>, f: Flush) returns (next: Flush)
    requires Ready(entities, values) && InRange(order, |entities|) && order != []
    requires !f.raised && !Flushed(entities, values, order, f).raised
    ensures InRange(order[1..], |entities|)
    ensures !next.raised && Flushed(entities, values, order, f) == Flushed(entities, values, order[1..], next)
    ensures var payload := PayloadOf(entities[order[0]], values[order[0]]);
            && payload.Some? && next.dirty == f.dirty - {order[0]}
            && next.retained == f.retained[entities[order[0]].stateTopic := payload.value]
  {
    hide PayloadOf;
    var idx := order[0];
    var payload := PayloadOf(entities[idx], values[idx]).value;
    next := Flush(f.dirty - {idx}, f.retained[entities[idx].stateTopic := payload],
                  f.published + 1, f.credit - 1, false);
  }

  lemma {:induction false} FlushClears(
    entities: seq<Entity>, values: seq<seq<Json>>, order: seq<nat>, f: Flush, i: nat)
    requires Ready(entities, values) && InRange(order, |entities|)
    requires !f.raised && !Flushed(entities, values, order, f).raised
    ensures i in Flushed(entities, values, order, f).dirty <==> i in f.dirty && i !in order
    decreases |order|
  {
    if order != [] {
      var next := FlushGoesOn(entities, values, order, f);
      hide Ready, Flushed, PayloadOf;
      FlushClears(entities, values, order[1..], next, i);
      assert order == [order[0]] + order[1..];
    }
  }

  lemma {:induction false} FlushSparesTopic(
    entities: seq<Entity>, values: seq<seq<Json>>, order: seq<nat>, f: Flush, t: string)
    requires Ready(entities, values) && InRange(order, |entities|)
    requires !f.raised && !Flushed(entities, values, order, f).raised
    requires forall i :: 0 <= i < |entities| && i in order ==> entities[i].stateTopic != t
    ensures var g := Flushed(entities, values, order, f);
            (t in g.retained <==> t in f.retained) && (t in f.retained ==> g.retained[t] == f.retained[t])
    decreases |order|
  {
    if order != [] {
      var next := FlushGoesOn(entities, values, order, f);
      assert order[0] in order && forall i :: i in order[1..] ==> i in order;
      hide Ready, Flushed, PayloadOf;
      FlushSparesTopic(entities, values, order[1..], next, t);
    }
  }

  lemma {:induction false} FlushPublishesOne(
    entities: seq<Entity>, values: seq<seq<Json>>, order: seq<nat>, f: Flush, i: nat)
    requires Ready(entities, values) && InRange(order, |entities|) && DistinctTopics(entities)
    requires !f.raised && !Flushed(entities, values, order, f).raised && i < |entities| && i in order
    ensures var g := Flushed(entities, values, order, f);
            && entities[i].stateTopic in g.retained
            && PayloadOf(entities[i], values[i]) == Some(g.retained[entities[i].stateTopic])
    decreases |order|
  {
    var next := FlushGoesOn(entities, values, order, f);
    assert order == [order[0]] + order[1..];
    if i in order[1..] {
      hide Ready, Flushed, PayloadOf, DistinctTopics;
      FlushPublishesOne(entities, values, order[1..], next, i);
    } else {
      hide Ready, Flushed, PayloadOf;
      FlushSparesTopic(entities, values, order[1..], next, entities[i].stateTopic);
    }
  }

  lemma FlushPublishes(entities: seq<Entity>, values: seq<seq<Json>>, order: seq<nat>, f: Flush)
    requires Ready(entities, values) && InRange(order, |entities|) && DistinctTopics(entities)
    requires !f.raised && !Flushed(entities, values, order, f).raised
    ensures var g := Flushed(entities, values, order, f);
            && (forall i :: i in g.dirty <==> i in f.dirty && i !in order)
            && (forall i :: 0 <= i < |entities| && i in order ==>
                  entities[i].stateTopic in g.retained &&
                  PayloadOf(entities[i], values[i]) == Some(g.retained[entities[i].stateTopic]))
            && (forall t :: (forall i :: 0 <= i < |entities| && i in order ==> entities[i].stateTopic != t) ==>
                  (t in g.retained <==> t in f.retained) && (t in f.retained ==> g.retained[t] == f.retained[t]))
  {
    var g := Flushed(entities, values, order, f);
    hide Flushed, PayloadOf, DistinctTopics;
    forall i: nat ensures i in g.dirty <==> i in f.dirty && i !in order {
      FlushClears(entities, values, order, f, i);
    }
    forall i | 0 <= i < |entities| && i in order
      ensures entities[i].stateTopic in g.retained
      ensures PayloadOf(entities[i], values[i]) == Some(g.retained[entities[i].stateTopic])
    {
      FlushPublishesOne(entities, values, order, f, i);
    }
    forall t | forall i :: 0 <= i < |entities| && i in order ==> entities[i].stateTopic != t
      ensures (t in g.retained <==> t in f.retained) && (t in f.retained ==> g.retained[t] == f.retained[t])
    {
      FlushSparesTopic(entities, values, order, f, t);
    }
  }

  // ---------------------------------------------------------------- routing and the dirty marks

  lemma {:induction false} RoutingMarksChanges(table: Table, s: Store, ds: seq<Datapoint>)
    requires Bound(table, s)
    ensures var t := RoutedAll(table, s, ds);
            && |t.values| == |s.values| && s.dirty <= t.dirty
            && (forall i :: 0 <= i < |s.values| ==> |t.values[i]| == |s.values[i]|)
            && (forall i :: 0 <= i < |s.values| && i !in t.dirty ==> t.values[i] == s.values[i])
            && (forall i :: i in t.dirty && i !in s.dirty ==> i < |s.values|)
    decreases |ds|
  {
    if ds != [] {
      RoutingMarksChanges(table, Routed(table, s, ds[0]), ds[1..]);
    }
  }

  lemma ReplayMarksChanges(w: World, next: Compiled, frames: seq<Frame>)
    requires Comparable(w, next) && next.Consistent()
    ensures var r := Replayed(w, next, frames);
            && Ready(next.entities, r.store.values)
            && Diff(w, next) <= r.store.dirty
            && (forall i :: 0 <= i < |next.entities| && i !in r.store.dirty ==> r.store.values[i] == next.initial[i])
            && (forall i :: i in r.store.dirty ==> i < |next.entities|)
  {
    FramesAreOneStream(next.table, Diffed(w, next).store, frames);
    RoutingMarksChanges(next.table, Diffed(w, next).store, Flatten(frames));
  }

  // ---------------------------------------------------------------- agreement

  /** The broker holds, for entity `i`, the payload of its current values. */
  predicate Agrees(w: World, i: nat)
    requires Ready(w.model.entities, w.store.values) && i < |w.model.entities|
  {
    var topic, payload := w.model.entities[i].stateTopic, PayloadOf(w.model.entities[i], w.store.values[i]);
    payload.Some? && topic in w.retained && Similar(w.retained[topic], payload.value)
  }

  predicate Owned(m: Compiled, topic: string) {
    exists i :: 0 <= i < |m.entities| && topic in TopicsOf(m.entities[i])
  }

  /** Nothing is waiting to be published, the broker agrees, and it holds nothing else. */
  ghost predicate Clean(w: World) {
    && w.model.Consistent() && Ready(w.model.entities, w.store.values) && w.store.dirty == {}
    && (forall i :: 0 <= i < |w.model.entities| ==> Agrees(w, i))
    && (forall t :: t in w.retained ==> Owned(w.model, t))
  }

  /** No state topic is an availability topic, in either model or across them. */
  ghost predicate TopicsApart(prior: Compiled, next: Compiled) {
    && (forall i, k :: 0 <= i < |next.entities| && 0 <= k < |prior.entities| ==>
          prior.entities[k].availabilityTopic != Some(next.entities[i].stateTopic))
    && (forall i, k :: 0 <= i < |prior.entities| && 0 <= k < |prior.entities| ==>
          prior.entities[k].availabilityTopic != Some(prior.entities[i].stateTopic))
  }

  predicate Survives(w: World, next: Compiled, i: nat)
    requires i < |next.entities|
  {
    next.entities[i].id in w.model.byId && w.model.byId[next.entities[i].id] < |w.model.entities|
  }

  function OldSelf(w: World, next: Compiled, i: nat): Entity
    requires i < |next.entities| && Survives(w, next, i)
  {
    w.model.entities[w.model.byId[next.entities[i].id]]
  }

  /** Surviving entities keep their attributes and transform. */
  ghost predicate LayoutKept(w: World, next: Compiled) {
    forall i :: 0 <= i < |next.entities| && Survives(w, next, i) ==>
      var o, n := OldSelf(w, next, i), next.entities[i];
      o.attrNames == n.attrNames && o.attrKinds == n.attrKinds && o.transform == n.transform
  }

  predicate TopicKept(w: World, next: Compiled, i: nat)
    requires i < |next.entities|
  {
    Survives(w, next, i) && OldSelf(w, next, i).stateTopic == next.entities[i].stateTopic
  }

  // ---------------------------------------------------------------- delta publishing is enough

  /** The final flush, if there is one to speak of, does not raise. */
  ghost predicate FlushGoesThrough(w: World, next: Compiled, frames: seq<Frame>, credit: nat) {
    Comparable(w, next) && Bound(next.table, Seeded(next)) &&
      Ready(next.entities, Replayed(w, next, frames).store.values) ==>
      !FlushOf(Replayed(w, next, frames), credit).raised
  }

  /** A resync from any state, with the buffered frames it replays and a flush that succeeds. */
  ghost predicate Completes(w: World, next: Compiled, frames: seq<Frame>, credit: nat) {
    && next.Consistent() && Comparable(w, next)
    && Ready(next.entities, Replayed(w, next, frames).store.values)
    && !FlushOf(Replayed(w, next, frames), credit).raised
  }

  ghost function End(w: World, next: Compiled, frames: seq<Frame>, credit: nat): World
    requires Completes(w, next, frames, credit)
  {
    Settled(Replayed(w, next, frames), FlushOf(Replayed(w, next, frames), credit))
  }

  /** A resync that completes, from a clean start, with the surviving entities' layout kept. */
  ghost predicate Succeeds(w: World, next: Compiled, frames: seq<Frame>, credit: nat) {
    Clean(w) && TopicsApart(w.model, next) && LayoutKept(w, next) && Completes(w, next, frames, credit)
  }

  /** No dirty entity publishes on this topic. */
  predicate Quiet(w: World, topic: string) {
    forall i :: 0 <= i < |w.model.entities| && i in w.store.dirty ==> w.model.entities[i].stateTopic != topic
  }

  lemma SimilarToItself(p: Payload)
    ensures Similar(p, p)
  {
  }

  /** A flush that succeeds replaces the topics of the dirty entities and leaves every other topic. */
  lemma FlushSettles(r: World, credit: nat)
    requires Ready(r.model.entities, r.store.values) && DistinctTopics(r.model.entities)
    requires forall i :: i in r.store.dirty ==> i < |r.model.entities|
    requires !FlushOf(r, credit).raised
    ensures var e := Settled(r, FlushOf(r, credit));
            && e.store.dirty == {}
            && (forall i :: i in r.store.dirty ==> Agrees(e, i))
            && (forall t :: Quiet(r, t) ==>
                  (t in e.retained <==> t in r.retained) && (t in r.retained ==> e.retained[t] == r.retained[t]))
  {
    hide PayloadOf, Similar;
    var order := Ascending(r.store.dirty, |r.model.entities|);
    FlushPublishes(r.model.entities, r.store.values, order, Flush(r.store.dirty, r.retained, 0, credit, false));
    hide Flushed, Ascending;
    var e := Settled(r, FlushOf(r, credit));
    forall i | i in r.store.dirty ensures Agrees(e, i) {
      assert i in order;
      SimilarToItself(e.retained[r.model.entities[i].stateTopic]);
    }
    forall t | Quiet(r, t)
      ensures (t in e.retained <==> t in r.retained) && (t in r.retained ==> e.retained[t] == r.retained[t])
    {
      assert forall i :: 0 <= i < |r.model.entities| && i in order ==> r.model.entities[i].stateTopic != t;
    }
  }

  lemma EndOfFlush(w: World, next: Compiled, frames: seq<Frame>, credit: nat)
    requires Completes(w, next, frames, credit)
    ensures var r, e := Replayed(w, next, frames), End(w, next, frames, credit);
            && e.store.dirty == {} && e.store.values == r.store.values && e.model == next
            && (forall i :: i in r.store.dirty ==> i < |next.entities| && Agrees(e, i))
            && (forall t :: Quiet(r, t) ==>
                  (t in e.retained <==> t in r.retained) && (t in r.retained ==> e.retained[t] == r.retained[t]))
  {
    hide PayloadOf, Similar, Flushed;
    ReplayMarksChanges(w, next, frames);
    FlushSettles(Replayed(w, next, frames), credit);
  }

  /**
   From any state: after a resync the broker agrees with an entity exactly if the entity was published in
   this resync or the broker agreed with it right after the diff.
   */
  lemma AgreementIff(w: World, next: Compiled, frames: seq<Frame>, credit: nat, i: nat)
    requires Completes(w, next, frames, credit) && i < |next.entities|
    ensures Ready(End(w, next, frames, credit).model.entities, End(w, next, frames, credit).store.values)
    ensures End(w, next, frames, credit).model == next
    ensures Agrees(End(w, next, frames, credit), i) <==>
            i in Replayed(w, next, frames).store.dirty || Agrees(Diffed(w, next), i)
  {
    EndOfFlush(w, next, frames, credit);
    if i !in Replayed(w, next, frames).store.dirty {
      CleanEntityIsQuiet(w, next, frames, i);
      CleanEntityIsUnchanged(w, next, frames, i);
    }
    hide PayloadOf, Flushed, ProcessedAll, Similar, RemovedTopics;
  }

  lemma RetainedAfterFlush(w: World, next: Compiled, frames: seq<Frame>, credit: nat, t: string)
    requires Completes(w, next, frames, credit)
    ensures t in End(w, next, frames, credit).retained <==>
            t in Diffed(w, next).retained || !Quiet(Replayed(w, next, frames), t)
  {
    var r, e := Replayed(w, next, frames), End(w, next, frames, credit);
    EndOfFlush(w, next, frames, credit);
    hide PayloadOf, Flushed, ProcessedAll, Similar, RemovedTopics;
    if !Quiet(r, t) {
      var i :| 0 <= i < |next.entities| && i in r.store.dirty && next.entities[i].stateTopic == t;
      assert Agrees(e, i);
    }
  }

  /**
   From any state: a resync ends clean exactly if every entity was published or agreed after the diff, and
   the diff left no topic at the broker that the new model does not own.
   */
  lemma CleanIff(w: World, next: Compiled, frames: seq<Frame>, credit: nat)
    requires Completes(w, next, frames, credit)
    ensures Clean(End(w, next, frames, credit)) <==>
            && (forall i :: 0 <= i < |next.entities| ==>
                  i in Replayed(w, next, frames).store.dirty || Agrees(Diffed(w, next), i))
            && (forall t :: t in Diffed(w, next).retained ==> Owned(next, t))
  {
    var r, e := Replayed(w, next, frames), End(w, next, frames, credit);
    hide *;
    EndIsReady(w, next, frames, credit);
    CleanMeans(e);
    forall i | 0 <= i < |next.entities|
      ensures Agrees(e, i) <==> i in r.store.dirty || Agrees(Diffed(w, next), i)
    {
      AgreementIff(w, next, frames, credit, i);
    }
    forall t ensures t in e.retained ==> t in Diffed(w, next).retained || Owned(next, t) {
      RetainedAfterFlush(w, next, frames, credit, t);
      DirtyTopicsAreOwned(r, t);
    }
    forall t ensures t in Diffed(w, next).retained ==> t in e.retained {
      RetainedAfterFlush(w, next, frames, credit, t);
    }
  }

  lemma CleanMeans(e: World)
    requires e.model.Consistent() && Ready(e.model.entities, e.store.values) && e.store.dirty == {}
    ensures Clean(e) <==>
            && (forall i :: 0 <= i < |e.model.entities| ==> Agrees(e, i))
            && (forall t :: t in e.retained ==> Owned(e.model, t))
  {
    hide Agrees, Owned;
  }

  lemma DirtyTopicsAreOwned(r: World, t: string)
    ensures !Quiet(r, t) ==> Owned(r.model, t)
  {
    if !Quiet(r, t) {
      var i :| 0 <= i < |r.model.entities| && i in r.store.dirty && r.model.entities[i].stateTopic == t;
      assert t in TopicsOf(r.model.entities[i]);
    }
  }

  lemma EndIsReady(w: World, next: Compiled, frames: seq<Frame>, credit: nat)
    requires Completes(w, next, frames, credit)
    ensures var e := End(w, next, frames, credit);
            && e.model == next && next.Consistent() && Ready(next.entities, e.store.values) && e.store.dirty == {}
            && Replayed(w, next, frames).model == next && Diffed(w, next).model == next
            && Ready(next.entities, Diffed(w, next).store.values) && Comparable(w, next)
  {
    EndOfFlush(w, next, frames, credit);
    hide PayloadOf, Flushed, ProcessedAll, Similar, RemovedTopics;
  }

  lemma SurvivorKeepsOldTopic(w: World, next: Compiled, i: nat)
    requires w.model.Consistent() && next.Consistent() && TopicsApart(w.model, next) && Comparable(w, next)
    requires i < |next.entities| && Survives(w, next, i)
    ensures OldSelf(w, next, i).stateTopic !in RemovedTopics(w, w.model.byId.Keys - next.byId.Keys)
  {
    var topic, ids := OldSelf(w, next, i).stateTopic, w.model.byId.Keys - next.byId.Keys;
    var j := w.model.byId[next.entities[i].id];
    forall id | id in ids ensures topic !in TopicsOf(w.model.entities[w.model.byId[id]]) {
      var k := w.model.byId[id];
      assert w.model.entities[k].id == id;
      assert k != j;
      assert w.model.entities[k].stateTopic != w.model.entities[j].stateTopic;
    }
  }

  lemma CleanEntityIsQuiet(w: World, next: Compiled, frames: seq<Frame>, i: nat)
    requires Comparable(w, next) && next.Consistent() && i < |next.entities|
    requires i !in Replayed(w, next, frames).store.dirty
    ensures Quiet(Replayed(w, next, frames), next.entities[i].stateTopic)
  {
    hide PayloadOf, ProcessedAll;
  }

  /** An entity the replay leaves clean is a survivor, and its live values were the fetched ones. */
  lemma CleanEntityIsUnchanged(w: World, next: Compiled, frames: seq<Frame>, i: nat)
    requires Comparable(w, next) && next.Consistent() && i < |next.entities|
    requires i !in Replayed(w, next, frames).store.dirty
    ensures Survives(w, next, i)
    ensures SameSeq(w.store.values[w.model.byId[next.entities[i].id]], next.initial[i])
    ensures |Replayed(w, next, frames).store.values| == |next.entities|
    ensures Replayed(w, next, frames).store.values[i] == next.initial[i]
  {
    ReplayMarksChanges(w, next, frames);
    hide PayloadOf, ProcessedAll, Replayed;
    assert i !in Diff(w, next);
    assert next.byId[next.entities[i].id] == i;
  }

  /** An unchanged survivor's payload is what the broker holds at its old topic exactly if it was before. */
  lemma OldPayloadStillFits(w: World, next: Compiled, i: nat)
    requires w.model.Consistent() && Ready(w.model.entities, w.store.values)
    requires next.Consistent() && Comparable(w, next) && LayoutKept(w, next)
    requires i < |next.entities| && Survives(w, next, i)
    requires SameSeq(w.store.values[w.model.byId[next.entities[i].id]], next.initial[i])
    ensures var topic, payload := OldSelf(w, next, i).stateTopic, PayloadOf(next.entities[i], next.initial[i]);
            payload.Some? && topic in w.retained && Similar(w.retained[topic], payload.value) <==>
            Agrees(w, w.model.byId[next.entities[i].id])
  {
    var o, n, j := OldSelf(w, next, i), next.entities[i], w.model.byId[next.entities[i].id];
    SameLayoutSamePayload(o, n, w.store.values[j]);
    PayloadRespectsSame(n, w.store.values[j], next.initial[i]);
    hide PayloadOf, Similar;
    if PayloadOf(n, next.initial[i]).Some? && o.stateTopic in w.retained {
      var p, q := PayloadOf(n, w.store.values[j]).value, PayloadOf(n, next.initial[i]).value;
      SimilarIsSymmetric(p, q);
      if Agrees(w, j) {
        SimilarIsTransitive(w.retained[o.stateTopic], p, q);
      }
      if Similar(w.retained[o.stateTopic], q) {
        SimilarIsTransitive(w.retained[o.stateTopic], q, p);
      }
    }
  }

  /** A survivor whose values did not change, at its old topic: what the broker holds is still right. */
  lemma KeptEntityAgrees(w: World, next: Compiled, frames: seq<Frame>, credit: nat, i: nat)
    requires Succeeds(w, next, frames, credit) && i < |next.entities|
    requires i !in Replayed(w, next, frames).store.dirty && TopicKept(w, next, i)
    ensures Agrees(End(w, next, frames, credit), i)
    ensures var topic := next.entities[i].stateTopic;
            topic in w.retained && topic in End(w, next, frames, credit).retained &&
            End(w, next, frames, credit).retained[topic] == w.retained[topic]
  {
    EndOfFlush(w, next, frames, credit);
    SurvivorKeepsOldTopic(w, next, i);
    CleanEntityIsQuiet(w, next, frames, i);
    CleanEntityIsUnchanged(w, next, frames, i);
    OldPayloadStillFits(w, next, i);
    hide PayloadOf, Flushed, ProcessedAll, Similar, RemovedTopics;
  }

  lemma SameLayoutSamePayload(o: Entity, n: Entity, values: seq<Json>)
    requires o.id == n.id && o.attrNames == n.attrNames && o.attrKinds == n.attrKinds && o.transform == n.transform
    requires o.Valid() && |values| == |o.attrNames|
    ensures PayloadOf(o, values) == PayloadOf(n, values)
  {
  }

  /** No attribute is called `id`, so every payload carries the id of its entity. */
  ghost predicate IdsShow(m: Compiled) {
    forall i :: 0 <= i < |m.entities| ==> "id" !in m.entities[i].attrNames
  }

  lemma {:induction false} FieldsAreNames(names: seq<string>, kinds: seq<Kind>, values: seq<Json>)
    requires |names| == |kinds| == |values|
    ensures forall k :: k in Fields(names, kinds, values) ==> k in names
  {
    if names != [] {
      FieldsAreNames(names[1..], kinds[1..], values[1..]);
    }
  }

  lemma PayloadShowsId(e: Entity, values: seq<Json>)
    requires e.Valid() && |values| == |e.attrNames| && "id" !in e.attrNames
    ensures var p := PayloadOf(e, values);
            p.Some? ==> "id" in p.value && p.value["id"] == Str(e.id)
  {
    FieldsAreNames(e.attrNames, e.attrKinds, values);
  }

  lemma OtherIdDisagrees(p: Payload, q: Payload, r: Payload, a: string, b: string)
    requires "id" in q && q["id"] == Str(a) && "id" in r && r["id"] == Str(b) && a != b
    requires Similar(p, q)
    ensures !Similar(p, r)
  {
  }

  /** A survivor that moved to another topic with its values unchanged is not published there. */
  lemma MovedEntityDisagrees(w: World, next: Compiled, frames: seq<Frame>, credit: nat, i: nat)
    requires Succeeds(w, next, frames, credit) && IdsShow(w.model) && IdsShow(next) && i < |next.entities|
    requires i !in Replayed(w, next, frames).store.dirty && !TopicKept(w, next, i)
    ensures !Agrees(End(w, next, frames, credit), i)
  {
    EndOfFlush(w, next, frames, credit);
    CleanEntityIsQuiet(w, next, frames, i);
    CleanEntityIsUnchanged(w, next, frames, i);
    hide PayloadOf, Flushed, ProcessedAll, Similar, RemovedTopics;
    if next.entities[i].stateTopic in w.retained && PayloadOf(next.entities[i], next.initial[i]).Some? {
      OldTopicHoldsAnotherId(w, next, i);
    }
  }

  /** A topic of the old model that a survivor does not keep belongs to an entity with another id. */
  lemma TopicIsOfAnother(w: World, next: Compiled, i: nat) returns (k: nat)
    requires Clean(w) && next.Consistent() && TopicsApart(w.model, next) && Comparable(w, next)
    requires i < |next.entities| && !TopicKept(w, next, i) && next.entities[i].stateTopic in w.retained
    ensures k < |w.model.entities| && w.model.entities[k].stateTopic == next.entities[i].stateTopic
    ensures w.model.entities[k].id != next.entities[i].id
  {
    hide PayloadOf, Similar, Agrees, Bound, DistinctTopics, Ready;
    var n := next.entities[i];
    assert Owned(w.model, n.stateTopic);
    k :| 0 <= k < |w.model.entities| && n.stateTopic in TopicsOf(w.model.entities[k]);
  }

  lemma OldTopicHoldsAnotherId(w: World, next: Compiled, i: nat)
    requires Clean(w) && next.Consistent() && TopicsApart(w.model, next) && Comparable(w, next)
    requires IdsShow(w.model) && IdsShow(next) && i < |next.entities| && !TopicKept(w, next, i)
    requires next.entities[i].stateTopic in w.retained && PayloadOf(next.entities[i], next.initial[i]).Some?
    ensures !Similar(w.retained[next.entities[i].stateTopic], PayloadOf(next.entities[i], next.initial[i]).value)
  {
    var k := TopicIsOfAnother(w, next, i);
    var n, o := next.entities[i], w.model.entities[k];
    assert Agrees(w, k);
    hide PayloadOf, Similar, TopicsApart, TopicKept, Comparable, DistinctTopics, Owned, Clean, Bound;
    PayloadShowsId(o, w.store.values[k]);
    PayloadShowsId(n, next.initial[i]);
    OtherIdDisagrees(w.retained[n.stateTopic], PayloadOf(o, w.store.values[k]).value,
      PayloadOf(n, next.initial[i]).value, o.id, n.id);
  }

  /**
   After a resync that began clean, the broker agrees with an entity of the new model exactly when the
   entity was published in this resync or kept its topic.
   */
  lemma AgreementAfterResync(w: World, next: Compiled, frames: seq<Frame>, credit: nat, i: nat)
    requires Succeeds(w, next, frames, credit) && IdsShow(w.model) && IdsShow(next) && i < |next.entities|
    ensures Ready(End(w, next, frames, credit).model.entities, End(w, next, frames, credit).store.values)
    ensures End(w, next, frames, credit).model == next
    ensures Agrees(End(w, next, frames, credit), i) <==>
            i in Replayed(w, next, frames).store.dirty || TopicKept(w, next, i)
  {
    EndOfFlush(w, next, frames, credit);
    hide PayloadOf, Flushed, ProcessedAll, Similar, RemovedTopics;
    if i !in Replayed(w, next, frames).store.dirty {
      if TopicKept(w, next, i) {
        KeptEntityAgrees(w, next, frames, credit, i);
      } else {
        MovedEntityDisagrees(w, next, frames, credit, i);
      }
    }
  }

  /** The topic a survivor had is still retained after the resync, moved or not. */
  lemma OldTopicStaysRetained(w: World, next: Compiled, frames: seq<Frame>, credit: nat, i: nat)
    requires Succeeds(w, next, frames, credit) && i < |next.entities| && Survives(w, next, i)
    ensures OldSelf(w, next, i).stateTopic in End(w, next, frames, credit).retained
  {
    SurvivorKeepsOldTopic(w, next, i);
    assert Agrees(w, w.model.byId[next.entities[i].id]);
    RetainedAfterFlush(w, next, frames, credit, OldSelf(w, next, i).stateTopic);
    hide PayloadOf, Flushed, ProcessedAll, Similar, RemovedTopics, Quiet;
  }

  /**
   A clean bridge is clean again after a resync, as after a republish of everything, exactly if every entity
   was published or kept its topic, and every topic that was retained and not cleared has an owner.
   */
  lemma CleanAfterResync(w: World, next: Compiled, frames: seq<Frame>, credit: nat)
    requires Succeeds(w, next, frames, credit) && IdsShow(w.model) && IdsShow(next)
    ensures Clean(End(w, next, frames, credit)) <==>
            && (forall i :: 0 <= i < |next.entities| ==>
                  i in Replayed(w, next, frames).store.dirty || TopicKept(w, next, i))
            && (forall t :: t in w.retained && t !in RemovedTopics(w, w.model.byId.Keys - next.byId.Keys) ==>
                  Owned(next, t))
  {
    CleanIff(w, next, frames, credit);
    forall i | 0 <= i < |next.entities|
      ensures i in Replayed(w, next, frames).store.dirty || Agrees(Diffed(w, next), i) <==>
              i in Replayed(w, next, frames).store.dirty || TopicKept(w, next, i)
    {
      AgreementIff(w, next, frames, credit, i);
      AgreementAfterResync(w, next, frames, credit, i);
    }
    var d := Diffed(w, next).retained;
    assert forall t :: t in d <==> t in w.retained && t !in RemovedTopics(w, w.model.byId.Keys - next.byId.Keys);
    hide Clean, Agrees, Owned, Replayed, TopicKept, RemovedTopics, Diffed, Succeeds, Completes;
  }

  ghost predicate TopicsKept(w: World, next: Compiled) {
    forall i :: 0 <= i < |next.entities| && Survives(w, next, i) ==>
      TopicKept(w, next, i) && TopicsOf(OldSelf(w, next, i)) == TopicsOf(next.entities[i])
  }

  /** In particular a clean bridge stays clean while the surviving entities keep their topics. */
  lemma KeptTopicsStayClean(w: World, next: Compiled, frames: seq<Frame>, credit: nat)
    requires Succeeds(w, next, frames, credit) && TopicsKept(w, next)
    ensures Clean(End(w, next, frames, credit))
  {
    CleanIff(w, next, frames, credit);
    hide PayloadOf, Flushed, ProcessedAll, Similar;
    forall i | 0 <= i < |next.entities| && i !in Replayed(w, next, frames).store.dirty
      ensures Agrees(Diffed(w, next), i)
    {
      CleanEntityIsUnchanged(w, next, frames, i);
      KeptEntityAgrees(w, next, frames, credit, i);
      AgreementIff(w, next, frames, credit, i);
    }
    forall t | t in Diffed(w, next).retained ensures Owned(next, t) {
      assert t in w.retained && t !in RemovedTopics(w, w.model.byId.Keys - next.byId.Keys);
      assert Owned(w.model, t);
      OldTopicIsKept(w, next, t);
    }
  }

  lemma OldTopicIsKept(w: World, next: Compiled, t: string)
    requires w.model.Consistent() && next.Consistent() && Comparable(w, next) && TopicsKept(w, next)
    requires Owned(w.model, t) && t !in RemovedTopics(w, w.model.byId.Keys - next.byId.Keys)
    ensures Owned(next, t)
  {
    var k :| 0 <= k < |w.model.entities| && t in TopicsOf(w.model.entities[k]);
    var id := w.model.entities[k].id;
    assert w.model.byId[id] == k;
    RemovedTopicsHold(w, next, id, t);
    var i := next.byId[id];
    assert next.entities[i].id == id;
    assert Survives(w, next, i) && OldSelf(w, next, i) == w.model.entities[k];
    assert t in TopicsOf(next.entities[i]);
  }

  lemma RemovedTopicsHold(w: World, next: Compiled, id: string, t: string)
    requires Comparable(w, next) && id in w.model.byId && t in TopicsOf(w.model.entities[w.model.byId[id]])
    ensures id !in next.byId ==> t in RemovedTopics(w, w.model.byId.Keys - next.byId.Keys)
  {
    assert id !in next.byId ==> id in w.model.byId.Keys - next.byId.Keys;
  }

  /** A removed entity's topic is gone unless an entity published in this resync took it over. */
  lemma RemovedTopicsAreCleared(w: World, next: Compiled, frames: seq<Frame>, credit: nat, id: string, topic: string)
    requires Succeeds(w, next, frames, credit)
    requires id in w.model.byId && id !in next.byId && topic in TopicsOf(w.model.entities[w.model.byId[id]])
    ensures topic in End(w, next, frames, credit).retained <==> !Quiet(Replayed(w, next, frames), topic)
  {
    var r, e := Replayed(w, next, frames), End(w, next, frames, credit);
    EndOfFlush(w, next, frames, credit);
    hide PayloadOf, Flushed, ProcessedAll, Similar;
    assert id in w.model.byId.Keys - next.byId.Keys;
    assert topic !in r.retained;
    if !Quiet(r, topic) {
      var i :| 0 <= i < |next.entities| && i in r.store.dirty && next.entities[i].stateTopic == topic;
      assert Agrees(e, i);
    }
  }

  // ---------------------------------------------------------------- from a start that is not clean

  /** The replayed frames mark the entity, whatever the diff did. */
  predicate FramesMark(next: Compiled, frames: seq<Frame>, i: nat)
    requires Bound(next.table, Seeded(next))
  {
    i in ProcessedAll(next.table, Seeded(next), frames).dirty
  }

  lemma {:induction false} MarksAccumulate(table: Table, s: Store, marks: set<nat>, ds: seq<Datapoint>)
    requires Bound(table, s)
    ensures var t := RoutedAll(table, s, ds);
            RoutedAll(table, s.(dirty := marks + s.dirty), ds) == t.(dirty := marks + t.dirty)
    decreases |ds|
  {
    if ds != [] {
      var n := Routed(table, s, ds[0]);
      assert Routed(table, s.(dirty := marks + s.dirty), ds[0]).dirty == marks + n.dirty;
      MarksAccumulate(table, n, marks, ds[1..]);
    }
  }

  /** A resync publishes new entities, entities whose live values are not the fetched ones, and what frames change. */
  lemma MarkedIff(w: World, next: Compiled, frames: seq<Frame>, i: nat)
    requires Comparable(w, next) && next.Consistent() && i < |next.entities|
    ensures i in Replayed(w, next, frames).store.dirty <==>
            || !Survives(w, next, i)
            || !SameSeq(w.store.values[w.model.byId[next.entities[i].id]], next.initial[i])
            || FramesMark(next, frames, i)
  {
    var seeded := Seeded(next);
    FramesAreOneStream(next.table, seeded, frames);
    FramesAreOneStream(next.table, Diffed(w, next).store, frames);
    MarksAccumulate(next.table, seeded, Diff(w, next), Flatten(frames));
    assert Diffed(w, next).store == seeded.(dirty := Diff(w, next) + seeded.dirty);
    assert i in Diff(w, next) <==> Differs(w, next, next.entities[i].id);
    hide RoutedAll, ProcessedAll, Flatten;
  }

  /**
   From any state: the broker agrees with an entity at its old topic exactly if the entity was published in
   this resync or the broker agreed with it before.
   */
  lemma KeptAgreementIff(w: World, next: Compiled, frames: seq<Frame>, credit: nat, i: nat)
    requires w.model.Consistent() && Ready(w.model.entities, w.store.values)
    requires TopicsApart(w.model, next) && LayoutKept(w, next) && Completes(w, next, frames, credit)
    requires i < |next.entities| && TopicKept(w, next, i)
    ensures Ready(End(w, next, frames, credit).model.entities, End(w, next, frames, credit).store.values)
    ensures End(w, next, frames, credit).model == next
    ensures Agrees(End(w, next, frames, credit), i) <==>
            i in Replayed(w, next, frames).store.dirty || Agrees(w, w.model.byId[next.entities[i].id])
  {
    AgreementIff(w, next, frames, credit, i);
    if i !in Replayed(w, next, frames).store.dirty {
      CleanEntityIsUnchanged(w, next, frames, i);
      SurvivorKeepsOldTopic(w, next, i);
      OldPayloadStillFits(w, next, i);
    }
    hide PayloadOf, Flushed, ProcessedAll, Similar, RemovedTopics, Replayed;
  }

  /**
   Why the resync must begin clean: dirty marks are not carried over. A change that was still waiting for its
   publish reaches the broker only if the resync finds it anew; otherwise nothing is dirty and the broker is
   stale.
   */
  lemma WaitingChangeIsForgotten(w: World, next: Compiled, frames: seq<Frame>, credit: nat, i: nat)
    requires w.model.Consistent() && Ready(w.model.entities, w.store.values)
    requires TopicsApart(w.model, next) && LayoutKept(w, next) && Completes(w, next, frames, credit)
    requires i < |next.entities| && TopicKept(w, next, i)
    requires var former := w.model.byId[next.entities[i].id]; former in w.store.dirty && !Agrees(w, former)
    ensures var e, former := End(w, next, frames, credit), w.model.byId[next.entities[i].id];
            && e.store.dirty == {} && e.model == next && Ready(next.entities, e.store.values)
            && (Agrees(e, i) <==> !SameSeq(w.store.values[former], next.initial[i]) || FramesMark(next, frames, i))
  {
    KeptAgreementIff(w, next, frames, credit, i);
    MarkedIff(w, next, frames, i);
    EndOfFlush(w, next, frames, credit);
    hide PayloadOf, Flushed, ProcessedAll, Similar, RemovedTopics, Replayed, Agrees;
  }

  /** A fetch of the entities as they are, with these values. */
  function Refetched(m: Compiled, values: seq<seq<Json>>): Compiled {
    m.(initial := values)
  }

  /**
   Such changes exist: any report that makes a clean bridge's entity differ from what the broker holds is lost
   in a resync that comes before its publish and fetches the reported values.
   */
  lemma ReportBeforeResyncIsLost(w: World, idx: nat, attr: nat, value: Json, bits: nat, credit: nat)
    requires Clean(w) && TopicsApart(w.model, w.model) && w.store.Has(idx, attr)
    requires var r := w.(store := Applied(w.store, idx, attr, value, bits));
             Ready(r.model.entities, r.store.values) && !Agrees(r, idx)
    ensures var r := w.(store := Applied(w.store, idx, attr, value, bits));
            var next := Refetched(w.model, r.store.values);
            && idx in r.store.dirty && Completes(r, next, [], credit)
            && var e := End(r, next, [], credit);
               && e.store.dirty == {} && e.model == next && Ready(next.entities, e.store.values) && !Agrees(e, idx)
  {
    var r := w.(store := Applied(w.store, idx, attr, value, bits));
    var next := Refetched(w.model, r.store.values);
    DisagreementIsWaiting(w, idx, attr, value, bits);
    hide Applied, PayloadOf, Similar, Clean, Agrees, DistinctTopics, Owned;
    RefetchedIsConsistent(r, next);
    RefetchedKeepsTopics(r, next);
    hide Compiled.Consistent, Ready, Diff, LayoutKept, TopicKept, Comparable, TopicsApart;
    NothingDirtyPublishesNothing(r, next, credit);
    WaitingChangeIsForgotten(r, next, [], credit, idx);
  }

  lemma DisagreementIsWaiting(w: World, idx: nat, attr: nat, value: Json, bits: nat)
    requires Clean(w) && w.store.Has(idx, attr)
    requires var r := w.(store := Applied(w.store, idx, attr, value, bits));
             Ready(r.model.entities, r.store.values) && !Agrees(r, idx)
    ensures w.model.Consistent() && idx in Applied(w.store, idx, attr, value, bits).dirty
  {
    assert Agrees(w, idx);
    hide PayloadOf, Similar;
  }

  lemma RefetchedIsConsistent(r: World, next: Compiled)
    requires r.model.Consistent() && Ready(r.model.entities, r.store.values)
    requires next == Refetched(r.model, r.store.values)
    ensures next.Consistent() && Comparable(r, next) && Diff(r, next) == {}
    ensures forall i :: 0 <= i < |next.entities| ==> next.entities[i].id in r.model.byId
    ensures forall i :: 0 <= i < |next.entities| ==> r.model.byId[next.entities[i].id] == i
  {
    hide DistinctTopics;
  }

  lemma RefetchedKeepsTopics(r: World, next: Compiled)
    requires r.model.Consistent() && next == Refetched(r.model, r.store.values)
    ensures LayoutKept(r, next) && forall i :: 0 <= i < |next.entities| ==> TopicKept(r, next, i)
  {
    hide DistinctTopics, Ready;
  }

  lemma NothingDirtyPublishesNothing(r: World, next: Compiled, credit: nat)
    requires next.Consistent() && Comparable(r, next) && Diff(r, next) == {}
    ensures Completes(r, next, [], credit) && forall i :: !FramesMark(next, [], i)
  {
    AscendingOfNone({}, |next.entities|);
  }

  // ---------------------------------------------------------------- where clean comes from

  /** Startup marks every entity dirty, so its first flush leaves the bridge clean. */
  lemma StartupIsClean(w: World, credit: nat)
    requires w.model.Consistent() && Ready(w.model.entities, w.store.values)
    requires forall i :: i in w.store.dirty <==> i < |w.model.entities|
    requires forall t :: t in w.retained ==> Owned(w.model, t)
    requires !FlushOf(w, credit).raised
    ensures Clean(Settled(w, FlushOf(w, credit)))
  {
    FlushSettles(w, credit);
    hide PayloadOf, Similar, Flushed;
    OnlyOwnTopics(w, credit);
  }

  lemma OnlyOwnTopics(w: World, credit: nat)
    requires w.model.Consistent() && Ready(w.model.entities, w.store.values)
    requires forall i :: i in w.store.dirty ==> i < |w.model.entities|
    requires forall t :: t in w.retained ==> Owned(w.model, t)
    requires !FlushOf(w, credit).raised
    ensures var e := Settled(w, FlushOf(w, credit)); forall t :: t in e.retained ==> Owned(w.model, t)
  {
    FlushSettles(w, credit);
    hide PayloadOf, Similar, Flushed;
    var e := Settled(w, FlushOf(w, credit));
    forall t | t in e.retained ensures Owned(w.model, t) {
      if !Quiet(w, t) {
        var i :| 0 <= i < |w.model.entities| && i in w.store.dirty && w.model.entities[i].stateTopic == t;
        assert t in TopicsOf(w.model.entities[i]);
      }
    }
  }

  /** Between resyncs, any number of reports followed by a flush that succeeds leaves a clean bridge clean. */
  lemma {:induction false} CleanAfterReports(w: World, ds: seq<Datapoint>, credit: nat)
    requires Clean(w) && Bound(w.model.table, w.store)
    ensures Ready(w.model.entities, RoutedAll(w.model.table, w.store, ds).values)
    ensures var r := w.(store := RoutedAll(w.model.table, w.store, ds));
            !FlushOf(r, credit).raised ==> Clean(Settled(r, FlushOf(r, credit)))
  {
    RoutingMarksChanges(w.model.table, w.store, ds);
    hide RoutedAll;
    var r := w.(store := RoutedAll(w.model.table, w.store, ds));
    if !FlushOf(r, credit).raised {
      FlushSettles(r, credit);
      OnlyOwnTopics(r, credit);
      hide PayloadOf, Similar, Flushed;
      var e := Settled(r, FlushOf(r, credit));
      forall i | 0 <= i < |e.model.entities| ensures Agrees(e, i) {
        if i !in r.store.dirty {
          assert Agrees(w, i);
          CleanTopicIsQuiet(r, i);
        }
      }
    }
  }

  lemma CleanTopicIsQuiet(r: World, i: nat)
    requires DistinctTopics(r.model.entities) && i < |r.model.entities| && i !in r.store.dirty
    ensures Quiet(r, r.model.entities[i].stateTopic)
  {
  }
}
