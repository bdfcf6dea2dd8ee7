/** The resync as `supervisor.py` carries it out: the same steps as in `Resync`, on the live objects. */
module Supervision {
  import opened Lists
  import opened Keys
  import opened Values
  import opened State
  import opened Publishing
  import opened Ingress
  import opened Resync

  /** A resync's own part; what the event loop does meanwhile only fills the reader's buffer. */
  class Supervisor {
    const ws: WsReader
    const mqtt: Broker
    var model: Compiled
    var state: StateStore

    ghost function Live(): World
      reads this, state, mqtt
    {
      World(model, state.Model(), mqtt.retained)
    }

    constructor (ws: WsReader, mqtt: Broker, model: Compiled, state: StateStore)
      ensures this.ws == ws && this.mqtt == mqtt && this.model == model && this.state == state
    {
      this.ws, this.mqtt, this.model, this.state := ws, mqtt, model, state;
    }

    method SeedState(m: Compiled) returns (seeded: StateStore)
      requires Ready(m.entities, m.initial)
      ensures fresh(seeded) && seeded.Model() == Seeded(m)
    {
      seeded := new StateStore(m.entities);
      for idx := 0 to |m.initial|
        invariant Filled(m, seeded.Model(), idx, 0)
      {
        for attr := 0 to |m.initial[idx]|
          invariant Filled(m, seeded.Model(), idx, attr)
        {
          seeded.Seed(idx, attr, m.initial[idx][attr]);
        }
      }
      FilledIsSeeded(m, seeded.Model());
    }

    /** New or changed entities become dirty; `ids` is walked in any order. */
    method MarkDifferences(next: Compiled, newState: StateStore)
      requires Comparable(Live(), next) && newState != state
      requires |newState.values| == |next.initial| && newState.values == next.initial && newState.dirty == {}
      modifies newState`dirty
      ensures newState.Model() == old(newState.Model()).(dirty := Diff(Live(), next))
    {
      var rest := next.byId.Keys;
      while rest != {}
        invariant rest <= next.byId.Keys
        invariant newState.dirty == set id | id in next.byId && id !in rest &&
                  Differs(Live(), next, id) :: next.byId[id]
      {
        var id :| id in rest;
        var newIdx := next.byId[id];
        if id !in model.byId || !SameSeq(state.values[model.byId[id]], newState.values[newIdx]) {
          newState.dirty := newState.dirty + {newIdx};
        }
        rest := rest - {id};
      }
    }

    /** Clears the entity's topics as far as the connection accepts it. */
    method RetractEntity(e: Entity) returns (ok: bool)
      modifies mqtt
      ensures var topics, k := TopicList(e), Min(old(mqtt.credit), |TopicList(e)|);
              && ok == (k == |topics|) && mqtt.credit == old(mqtt.credit) - k
              && mqtt.retained == Without(old(mqtt.retained), topics[..k])
    {
      ClearingInTurn(e, mqtt.retained);
      ok := mqtt.Clear(e.stateTopic);
      if ok && e.availabilityTopic.Some? {
        ok := mqtt.Clear(e.availabilityTopic.value);
      }
    }

    /** Clears the topics of every entity of the old model that the new one does not have, in order of their ids. */
    method RetractRemoved(prior: Compiled, next: Compiled) returns (ok: bool)
      requires forall id :: id in prior.byId ==> prior.byId[id] < |prior.entities|
      modifies mqtt
      ensures var topics := RemovedInOrder(prior, next);
              var k := Min(old(mqtt.credit), |topics|);
              && ok == (k == |topics|) && mqtt.credit == old(mqtt.credit) - k
              && mqtt.retained == Without(old(mqtt.retained), topics[..k])
    {
      hide TopicsInOrder, TopicList, Without;
      var removed := Sort(prior.byId.Keys - next.byId.Keys);
      SortedAreEntities(prior, prior.byId.Keys - next.byId.Keys);
      ghost var was, credit := mqtt.retained, mqtt.credit;
      NothingCleared(prior, was);
      for i := 0 to |removed|
        invariant ClearedUpTo(prior, removed, i, was, credit, mqtt.retained, mqtt.credit)
      {
        ghost var retained, left := mqtt.retained, mqtt.credit;
        ok := RetractEntity(prior.entities[prior.byId[removed[i]]]);
        OneMoreCleared(prior, removed, i, was, credit, retained, left);
        if !ok {
          return;
        }
      }
      assert removed[..|removed|] == removed;
      ghost var topics := TopicsInOrder(prior, removed);
      assert topics[..|topics|] == topics;
      ok := true;
    }

    method DiffAndApply(next: Compiled) returns (ok: bool)
      requires Comparable(Live(), next) && next.Consistent()
      modifies this, mqtt
      ensures fresh(state)
      ensures var topics := RemovedInOrder(old(model), next);
              var k := Min(old(mqtt.credit), |topics|);
              && ok == (k == |topics|) && mqtt.credit == old(mqtt.credit) - k
              && Live() == PartlyDiffed(old(Live()), next, topics[..k])
      ensures ok ==> Live() == Diffed(old(Live()), next)
    {
      ghost var before := Live();
      var newState := SeedState(next);
      MarkDifferences(next, newState);
      var prior := model;
      model, state := next, newState;
      ok := RetractRemoved(prior, next);
      RemovedInOrderAreAll(before, next);
      ghost var topics := RemovedInOrder(prior, next);
      assert topics[..|topics|] == topics;
    }

    /**
     The end of a resync, once the configuration has been compiled: apply it, replay what the reader has
     buffered since, and flush.
     */
    method FinishResync(next: Compiled) returns (ok: bool)
      requires Comparable(Live(), next) && next.Consistent()
      modifies this, mqtt, ws
      ensures Outcome(Live(), ok) == Finished(old(Live()), next, old(ws.buffer), old(mqtt.credit))
      ensures ws.Model() == if old(mqtt.credit) < |RemovedInOrder(old(model), next)| then old(ws.Model())
                            else old(ws.Model()).(buffering := false, buffer := [])
    {
      hide PayloadOf, Flushed, ProcessedAll, TopicsInOrder, TopicList, Without, Ascending, Ready;
      ghost var before := Live();
      ok := DiffAndApply(next);
      if !ok {
        return;
      }
      var frames := ws.DrainBuffer();
      var router := new Router(next.table, state);
      ProcessBuffered(router, frames);
      assert Live() == Replayed(before, next, frames);
      ReplayMarksChanges(before, next, frames);
      ReplayFits(before, next, frames);
      ok := Flush();
    }

    method Flush() returns (ok: bool)
      requires Ready(model.entities, state.values) && state.Model().Fits(model.entities)
      modifies state`dirty, mqtt
      ensures FlushOf(old(Live()), old(mqtt.credit)).raised == !ok
      ensures Live() == Settled(old(Live()), FlushOf(old(Live()), old(mqtt.credit)))
    {
      var publisher := new Publisher(model.entities, state, mqtt);
      ok := publisher.FlushDirty();
    }
  }

  method ProcessBuffered(router: Router, frames: seq<Frame>)
    requires Bound(router.table, router.state.Model())
    modifies router, router.state
    ensures router.state.Model() == ProcessedAll(router.table, old(router.state.Model()), frames)
  {
    hide RoutedAll;
    for i := 0 to |frames|
      invariant Bound(router.table, router.state.Model())
      invariant ProcessedAll(router.table, old(router.state.Model()), frames) ==
                ProcessedAll(router.table, router.state.Model(), frames[i..])
    {
      assert frames[i..][0] == frames[i] && frames[i..][1..] == frames[i + 1..];
      router.ProcessFrame(frames[i]);
    }
  }

  /** The entities before `idx`, and of that one the attributes before `attr`, have their initial values. */
  ghost predicate Filled(m: Compiled, s: Store, idx: nat, attr: nat)
    requires Ready(m.entities, m.initial) && idx <= |m.initial|
  {
    && s == Store(s.values, seq(|m.initial|, _ => 0), {}, false) && |s.values| == |m.initial|
    && (forall i :: 0 <= i < |m.initial| ==> |s.values[i]| == |m.initial[i]|)
    && (forall i :: 0 <= i < idx ==> s.values[i] == m.initial[i])
    && (idx < |m.initial| ==> attr <= |m.initial[idx]| && s.values[idx][..attr] == m.initial[idx][..attr])
  }

  lemma FilledIsSeeded(m: Compiled, s: Store)
    requires Ready(m.entities, m.initial) && Filled(m, s, |m.initial|, 0)
    ensures s == Seeded(m)
  {
    assert s.values == m.initial;
  }

  function Min(n: nat, most: nat): (k: nat)
    ensures k <= n && k <= most
  {
    if n < most then n else most
  }

  function TopicList(e: Entity): seq<string> {
    [e.stateTopic] + if e.availabilityTopic.Some? then [e.availabilityTopic.value] else []
  }

  function Without(retained: Retained, topics: seq<string>): Retained {
    retained - set t | t in topics
  }

  /** What an entity's retraction clears, first the state topic and then the availability topic. */
  lemma RetractedTopics(e: Entity)
    ensures e.availabilityTopic.None? ==> TopicList(e) == [e.stateTopic]
    ensures e.availabilityTopic.Some? ==> TopicList(e) == [e.stateTopic, e.availabilityTopic.value]
    ensures TopicsOf(e) == set t | t in TopicList(e)
  {
  }

  /** Clearing topics removes just those. */
  lemma WithoutMeans(retained: Retained, topics: seq<string>, t: string)
    ensures t in Without(retained, topics) <==> t in retained && t !in topics
    ensures t in Without(retained, topics) ==> Without(retained, topics)[t] == retained[t]
  {
  }

  lemma WithoutMore(retained: Retained, a: seq<string>, b: seq<string>)
    ensures Without(retained, a + b) == Without(Without(retained, a), b)
  {
  }

  lemma ClearingInTurn(e: Entity, retained: Retained)
    ensures Without(retained, TopicList(e)[..0]) == retained
    ensures Without(retained, TopicList(e)[..1]) == retained - {e.stateTopic}
    ensures e.availabilityTopic.Some? ==>
              Without(retained, TopicList(e)[..2]) == retained - {e.stateTopic} - {e.availabilityTopic.value}
  {
    assert TopicList(e)[..1] == [e.stateTopic];
    if e.availabilityTopic.Some? {
      assert TopicList(e)[..2] == [e.stateTopic, e.availabilityTopic.value];
    }
  }

  predicate HaveEntities(m: Compiled, ids: seq<string>) {
    forall i :: 0 <= i < |ids| ==> ids[i] in m.byId && m.byId[ids[i]] < |m.entities|
  }

  lemma SortedAreEntities(m: Compiled, ids: set<string>)
    requires forall id :: id in ids ==> id in m.byId && m.byId[id] < |m.entities|
    ensures HaveEntities(m, Sorted(ids))
  {
    SortedIsSorted(ids);
    var sorted := Sorted(ids);
    forall i | 0 <= i < |sorted| ensures sorted[i] in m.byId && m.byId[sorted[i]] < |m.entities| {
      assert sorted[i] in sorted;
    }
  }

  function TopicsInOrder(m: Compiled, ids: seq<string>): seq<string>
    requires HaveEntities(m, ids)
  {
    if ids == [] then []
    else
      var last := |ids| - 1;
      TopicsInOrder(m, ids[..last]) + TopicList(m.entities[m.byId[ids[last]]])
  }

  /** The topics of removed entities in the order in which they are cleared. */
  ghost function RemovedInOrder(prior: Compiled, next: Compiled): seq<string>
    requires forall id :: id in prior.byId ==> prior.byId[id] < |prior.entities|
  {
    SortedAreEntities(prior, prior.byId.Keys - next.byId.Keys);
    TopicsInOrder(prior, Sorted(prior.byId.Keys - next.byId.Keys))
  }

  lemma {:induction false} TopicsArePrefix(m: Compiled, ids: seq<string>, i: nat)
    requires HaveEntities(m, ids) && i <= |ids|
    ensures TopicsInOrder(m, ids[..i]) <= TopicsInOrder(m, ids)
    decreases |ids| - i
  {
    hide TopicList;
    if i == |ids| {
      assert ids[..i] == ids;
    } else {
      assert ids[..i + 1][..i] == ids[..i];
      TopicsArePrefix(m, ids, i + 1);
    }
  }

  /** The topics of the first `i` removed entities are cleared, and nothing else has been published. */
  ghost predicate ClearedUpTo(m: Compiled, ids: seq<string>, i: nat, was: Retained, credit: nat, retained: Retained,
      left: nat)
    requires HaveEntities(m, ids) && i <= |ids|
  {
    var done := TopicsInOrder(m, ids[..i]);
    |done| <= credit && left == credit - |done| && retained == Without(was, done)
  }

  lemma NothingCleared(m: Compiled, was: Retained)
    ensures TopicsInOrder(m, []) == [] && Without(was, []) == was
  {
  }

  lemma OneMoreCleared(m: Compiled, ids: seq<string>, i: nat, was: Retained, credit: nat, retained: Retained, left: nat)
    requires HaveEntities(m, ids) && i < |ids| && ClearedUpTo(m, ids, i, was, credit, retained, left)
    ensures var mine, all := TopicList(m.entities[m.byId[ids[i]]]), TopicsInOrder(m, ids);
            var k := Min(left, |mine|);
            if k == |mine| then ClearedUpTo(m, ids, i + 1, was, credit, Without(retained, mine[..k]), left - k)
            else k == left && credit < |all| && Without(retained, mine[..k]) == Without(was, all[..credit])
  {
    var mine, done := TopicList(m.entities[m.byId[ids[i]]]), TopicsInOrder(m, ids[..i]);
    var k := Min(left, |mine|);
    assert ids[..i + 1][..i] == ids[..i];
    assert TopicsInOrder(m, ids[..i + 1]) == done + mine;
    TopicsArePrefix(m, ids, i + 1);
    WithoutMore(was, done, mine[..k]);
    hide TopicsInOrder, TopicList, Without;
    if k == |mine| {
      assert mine[..k] == mine;
    } else {
      assert TopicsInOrder(m, ids)[..credit] == done + mine[..k];
    }
  }

  lemma {:induction false} TopicsInOrderAreAll(m: Compiled, ids: seq<string>, t: string)
    requires HaveEntities(m, ids)
    ensures t in TopicsInOrder(m, ids) <==> exists id :: id in ids && t in TopicsOf(m.entities[m.byId[id]])
  {
    if ids != [] {
      var last := |ids| - 1;
      assert ids == ids[..last] + [ids[last]];
      TopicsInOrderAreAll(m, ids[..last], t);
    }
  }

  lemma RemovedInOrderAreAll(w: World, next: Compiled)
    requires Comparable(w, next)
    ensures (set t | t in RemovedInOrder(w.model, next)) == RemovedTopics(w, w.model.byId.Keys - next.byId.Keys)
  {
    var ids := w.model.byId.Keys - next.byId.Keys;
    SortedIsSorted(ids);
    SortedAreEntities(w.model, ids);
    hide Sorted, TopicsInOrder, TopicsOf;
    forall t ensures t in RemovedInOrder(w.model, next) <==> t in RemovedTopics(w, ids) {
      TopicsInOrderAreAll(w.model, Sorted(ids), t);
    }
  }

  /** The new model and its store, with only some topics cleared. */
  function PartlyDiffed(w: World, next: Compiled, cleared: seq<string>): World
    requires Comparable(w, next)
  {
    World(next, Seeded(next).(dirty := Diff(w, next)), Without(w.retained, cleared))
  }

  /** Only the broker tells an interrupted diff from a complete one. */
  lemma PartlyDiffedMeans(w: World, next: Compiled, cleared: seq<string>)
    requires Comparable(w, next)
    ensures PartlyDiffed(w, next, cleared) ==
            Diffed(w, next).(retained := PartlyDiffed(w, next, cleared).retained)
    ensures forall t :: t in PartlyDiffed(w, next, cleared).retained <==> t in w.retained && t !in cleared
    ensures forall t :: t in PartlyDiffed(w, next, cleared).retained ==>
              PartlyDiffed(w, next, cleared).retained[t] == w.retained[t]
  {
  }

  datatype Outcome = Outcome(world: World, ok: bool)

  /**
   Where a resync ends over a connection that accepts `credit` more publishes: in the middle of the
   retractions, in the middle of the flush, or at its end.
   */
  ghost function Finished(w: World, next: Compiled, frames: seq<Frame>, credit: nat): Outcome
    requires Comparable(w, next) && next.Consistent()
  {
    var topics := RemovedInOrder(w.model, next);
    if credit < |topics| then Outcome(PartlyDiffed(w, next, topics[..credit]), false)
    else
      ReplayMarksChanges(w, next, frames);
      var r := Replayed(w, next, frames);
      var f := FlushOf(r, credit - |topics|);
      Outcome(Settled(r, f), !f.raised)
  }

  /** A resync that gets through is one of those the laws are about. */
  lemma FinishedIsEnd(w: World, next: Compiled, frames: seq<Frame>, credit: nat)
    requires Comparable(w, next) && next.Consistent() && Finished(w, next, frames, credit).ok
    ensures var left := credit - |RemovedInOrder(w.model, next)|;
            && left >= 0 && Completes(w, next, frames, left)
            && Finished(w, next, frames, credit).world == End(w, next, frames, left)
  {
    ReplayMarksChanges(w, next, frames);
    hide PayloadOf, Flushed, ProcessedAll;
  }

  /** With too few publishes for the retractions the new model and its marks stand, and the first topics are gone. */
  lemma InterruptedRetraction(w: World, next: Compiled, frames: seq<Frame>, credit: nat)
    requires Comparable(w, next) && next.Consistent() && credit < |RemovedInOrder(w.model, next)|
    ensures var outcome := Finished(w, next, frames, credit);
            && !outcome.ok && outcome.world.model == next && outcome.world.store == Diffed(w, next).store
            && (forall t :: t in outcome.world.retained <==>
                  t in w.retained && t !in RemovedInOrder(w.model, next)[..credit])
  {
    PartlyDiffedMeans(w, next, RemovedInOrder(w.model, next)[..credit]);
  }

  /** With enough, the buffer is replayed and what is left of the publishes goes to the flush. */
  lemma InterruptedFlush(w: World, next: Compiled, frames: seq<Frame>, credit: nat)
    requires Comparable(w, next) && next.Consistent() && credit >= |RemovedInOrder(w.model, next)|
    ensures Ready(next.entities, Replayed(w, next, frames).store.values)
    ensures var outcome, r := Finished(w, next, frames, credit), Replayed(w, next, frames);
            var f := FlushOf(r, credit - |RemovedInOrder(w.model, next)|);
            && outcome.ok == !f.raised && outcome.world.model == next
            && outcome.world.store == r.store.(dirty := f.dirty) && outcome.world.retained == f.retained
  {
    hide PayloadOf, Flushed, ProcessedAll, RemovedInOrder;
    ReplayMarksChanges(w, next, frames);
  }

  lemma ReplayFits(w: World, next: Compiled, frames: seq<Frame>)
    requires Comparable(w, next) && next.Consistent()
    ensures Replayed(w, next, frames).store.Fits(next.entities)
  {
    ReplayMarksChanges(w, next, frames);
    FramesAreOneStream(next.table, Diffed(w, next).store, frames);
    MarksStayAligned(next.table, Diffed(w, next).store, Flatten(frames));
    hide RoutedAll, ProcessedAll;
  }

  lemma {:induction false} MarksStayAligned(table: Table, s: Store, ds: seq<Datapoint>)
    requires Bound(table, s)
    ensures |RoutedAll(table, s, ds).unconfirmed| == |s.unconfirmed|
    decreases |ds|
  {
    if ds != [] {
      MarksStayAligned(table, Routed(table, s, ds[0]), ds[1..]);
    }
  }
}
