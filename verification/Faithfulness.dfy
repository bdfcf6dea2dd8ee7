/**
 Between resyncs the bridge's flushes run beside reports, commands and each other. What such runs leave, in
 the terms of the resync: a broker that agrees with everything that is neither waiting nor raced.
 */
module Faithfulness {
  import opened Wrappers
  import opened Values
  import opened State
  import opened Publishing
  import opened Interleaving
  import opened Ingress
  import opened Resync

  /** Two systems that differ at most in how an equal number is written at the broker. */
  predicate Twins(a: System, b: System) {
    && b == a.(retained := b.retained) && a.retained.Keys == b.retained.Keys
    && forall t :: t in a.retained ==> Similar(a.retained[t], b.retained[t])
  }

  lemma SentAlike(a: System, b: System)
    requires Twins(a, b)
    ensures forall idx :: BeingSent(a, idx) <==> BeingSent(b, idx)
  {
    hide Similar;
  }

  lemma WriteKeepsTwins(a: System, b: System, entity: nat, store: Store)
    requires Twins(a, b) && entity < |a.store.values| && entity < |store.values|
    ensures Twins(Write(a, entity, store), Write(b, entity, store))
  {
    SentAlike(a, b);
    hide Spoiled, BeingSent, Similar;
  }

  lemma DeliverKeepsTwins(a: System, b: System, t: nat)
    requires Twins(a, b) && WellFormed(a) && Enabled(a, Deliver(t))
    ensures WellFormed(b) && Twins(Step(a, Deliver(t)), Step(b, Deliver(t)))
  {
    hide Ready, Similar;
    SimilarToItself(a.tasks[t].sending.value.payload);
  }

  lemma StepKeepsTwins(a: System, b: System, e: Event)
    requires Twins(a, b) && WellFormed(a) && Enabled(a, e)
    ensures WellFormed(b) && Enabled(b, e) && Twins(Step(a, e), Step(b, e))
  {
    SentAlike(a, b);
    hide PayloadOf, Ready, TasksFit, Applied, Marked, Ascending, Spoiled, BeingSent, Write, Similar;
    match e
    case Report(entity, attr, value, bits) =>
      WriteKeepsTwins(a, b, entity, Applied(a.store, entity, attr, value, bits));
    case Guess(entity, attr, value, bits) =>
      WriteKeepsTwins(a, b, entity, Marked(a.store, entity, attr, value, bits));
    case Deliver(t) => DeliverKeepsTwins(a, b, t);
    case _ =>
  }

  lemma {:induction false} RunKeepsTwins(a: System, b: System, run: seq<Event>)
    requires Twins(a, b) && Legal(a, run)
    ensures Legal(b, run) && Twins(After(a, run), After(b, run))
    decreases |run|
  {
    if run != [] {
      StepKeepsTwins(a, b, run[0]);
      hide Step, Twins;
      RunKeepsTwins(Step(a, run[0]), Step(b, run[0]), run[1..]);
    }
  }

  /** Every retained topic belongs to the model. */
  ghost predicate OnlyOwn(m: Compiled, s: System) {
    m.entities == s.entities && forall t :: t in s.retained ==> Owned(m, t)
  }

  lemma StepKeepsOwn(m: Compiled, s: System, e: Event)
    requires OnlyOwn(m, s) && WellFormed(s) && Enabled(s, e)
    ensures OnlyOwn(m, Step(s, e))
  {
    if e.Deliver? {
      var idx := s.tasks[e.task].sending.value.idx;
      assert m.entities[idx].stateTopic in TopicsOf(m.entities[idx]);
    }
    hide PayloadOf;
  }

  lemma {:induction false} RunKeepsOwn(m: Compiled, s: System, run: seq<Event>)
    requires OnlyOwn(m, s) && Legal(s, run)
    ensures OnlyOwn(m, After(s, run))
    decreases |run|
  {
    if run != [] {
      StepKeepsOwn(m, s, run[0]);
      hide Step, OnlyOwn;
      RunKeepsOwn(m, Step(s, run[0]), run[1..]);
    }
  }

  /** The broker agrees with every entity that neither waits to be published nor raced, and holds nothing else. */
  ghost predicate Faithful(w: World, raced: set<nat>) {
    && w.model.Consistent() && Ready(w.model.entities, w.store.values) && w.store.Fits(w.model.entities)
    && (forall i :: 0 <= i < |w.model.entities| && i !in w.store.dirty && i !in raced ==> Agrees(w, i))
    && (forall t :: t in w.retained ==> Owned(w.model, t))
  }

  lemma SoundIsFaithful(m: Compiled, s: System)
    requires Inv(s) && m.Consistent() && OnlyOwn(m, s)
    ensures Faithful(World(m, s.store, s.retained), s.raced)
  {
    var w := World(m, s.store, s.retained);
    hide PayloadOf, Similar;
    forall i | 0 <= i < |m.entities| && i !in s.store.dirty && i !in s.raced ensures Agrees(w, i) {
      assert Published(s, i);
      SimilarToItself(s.retained[m.entities[i].stateTopic]);
    }
  }

  lemma TwinOfFaithfulIsFaithful(m: Compiled, a: System, b: System)
    requires Twins(a, b) && Faithful(World(m, b.store, b.retained), b.raced)
    ensures Faithful(World(m, a.store, a.retained), a.raced)
  {
    var w, v := World(m, a.store, a.retained), World(m, b.store, b.retained);
    hide PayloadOf, Similar;
    forall i | 0 <= i < |m.entities| && i !in a.store.dirty && i !in a.raced ensures Agrees(w, i) {
      assert Agrees(v, i);
      var topic := m.entities[i].stateTopic;
      SimilarIsTransitive(a.retained[topic], b.retained[topic], PayloadOf(m.entities[i], a.store.values[i]).value);
    }
  }

  /** The bridge with no flush under way. */
  function AtRest(w: World): System {
    System(w.model.entities, w.store, w.retained, map[], {})
  }

  /** What the broker would hold at this topic if what agrees had been published just now. */
  ghost function Republished(w: World, topic: string): Payload
    requires Ready(w.model.entities, w.store.values) && topic in w.retained
  {
    if i: nat :| i < |w.model.entities| && w.model.entities[i].stateTopic == topic && Agrees(w, i) then
      PayloadOf(w.model.entities[i], w.store.values[i]).value
    else w.retained[topic]
  }

  lemma RepublishedIsSimilar(w: World, topic: string)
    requires Ready(w.model.entities, w.store.values) && topic in w.retained
    ensures Similar(w.retained[topic], Republished(w, topic))
  {
    hide PayloadOf, Similar;
    SimilarToItself(w.retained[topic]);
  }

  lemma RepublishedIsExact(w: World, i: nat)
    requires Ready(w.model.entities, w.store.values) && DistinctTopics(w.model.entities)
    requires i < |w.model.entities| && Agrees(w, i)
    ensures PayloadOf(w.model.entities[i], w.store.values[i]) == Some(Republished(w, w.model.entities[i].stateTopic))
  {
    hide PayloadOf, Similar;
  }

  ghost function PublishedTwin(w: World): System
    requires Ready(w.model.entities, w.store.values)
  {
    AtRest(w).(retained := map t | t in w.retained :: Republished(w, t))
  }

  lemma PublishedTwinIsTwin(w: World)
    requires Ready(w.model.entities, w.store.values)
    ensures Twins(AtRest(w), PublishedTwin(w))
  {
    hide PayloadOf, Similar, Republished, Ready;
    forall t | t in w.retained ensures Similar(w.retained[t], Republished(w, t)) {
      RepublishedIsSimilar(w, t);
    }
  }

  lemma TwinHasPublished(w: World, i: nat)
    requires Faithful(w, {}) && i < |w.model.entities| && i !in w.store.dirty
    ensures WellFormed(PublishedTwin(w)) && Published(PublishedTwin(w), i)
  {
    hide PayloadOf, Similar, Republished, Owned, Bound;
    assert Agrees(w, i);
    RepublishedIsExact(w, i);
    hide DistinctTopics;
  }

  lemma PublishedTwinIsSound(w: World)
    requires Faithful(w, {})
    ensures Inv(PublishedTwin(w))
  {
    hide Republished, Published, Agrees, DistinctTopics, Bound, Owned;
    forall i | 0 <= i < |w.model.entities| && i !in w.store.dirty ensures Published(PublishedTwin(w), i) {
      TwinHasPublished(w, i);
    }
  }

  /**
   Between resyncs: after any run of reports, guesses and overlapping flushes, whichever publishes fail, the
   broker agrees with every entity that is not dirty and has not changed during its own publish without a
   clean publish since. With no such race and nothing left dirty the bridge is clean.
   */
  lemma RunsStayFaithful(w: World, run: seq<Event>)
    requires Faithful(w, {}) && Legal(AtRest(w), run)
    ensures var n := After(AtRest(w), run);
            && Faithful(World(w.model, n.store, n.retained), n.raced)
            && (n.store.dirty == {} && n.raced == {} ==> Clean(World(w.model, n.store, n.retained)))
  {
    var b := PublishedTwin(w);
    PublishedTwinIsTwin(w);
    PublishedTwinIsSound(w);
    RunKeepsTwins(AtRest(w), b, run);
    RunKeepsOwn(w.model, AtRest(w), run);
    CleanEntitiesArePublished(b, run);
    var m, n := After(b, run), After(AtRest(w), run);
    hide After, Legal, PayloadOf, Similar, PublishedTwin;
    SoundIsFaithful(w.model, m);
    TwinOfFaithfulIsFaithful(w.model, n, m);
  }

  /** A clean bridge is faithful, and so is one that starts with everything dirty. */
  lemma FaithfulStarts(w: World)
    requires w.model.Consistent() && Ready(w.model.entities, w.store.values) && w.store.Fits(w.model.entities)
    ensures Clean(w) <==> Faithful(w, {}) && w.store.dirty == {}
    ensures (forall i :: 0 <= i < |w.model.entities| ==> i in w.store.dirty) ==>
              (Faithful(w, {}) <==> forall t :: t in w.retained ==> Owned(w.model, t))
  {
    hide PayloadOf, Similar;
  }
}
