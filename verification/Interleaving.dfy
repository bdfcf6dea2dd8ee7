/**
 Flushes that run beside the writers: while a flush awaits a publish, reports and commands go on
 changing the store, and other flushes may be under way. One step is the code between two `await`s.
 */
module Interleaving {
  import opened Wrappers
  import opened Values
  import opened State
  import opened Publishing

  /**
   A publish under way; the broker may have its message before the flush hears of it. `clean` is history:
   the entity has not changed since, and no other publish of it has been under way beside this one.
   */
  datatype Sending = Sending(idx: nat, payload: Payload, delivered: bool, clean: bool)

  datatype Task = Task(queue: seq<nat>, sending: Option<Sending>)

  /**
   `raced` is history: the entities that changed during one of their own publishes, and have not had a clean
   publish completed since.
   */
  datatype System = System(
    entities: seq<Entity>,
    store: Store,
    retained: Retained,
    tasks: map<nat, Task>,
    raced: set<nat>)

  datatype Event =
    | Report(entity: nat, attr: nat, value: Json, bits: nat)
    | Guess(entity: nat, attr: nat, value: Json, bits: nat)
    | Begin(task: nat)
    | Start(task: nat)
    | Deliver(task: nat)
    | Complete(task: nat)
    | Stop(task: nat)

  predicate BeingSent(s: System, idx: nat) {
    exists t :: t in s.tasks && s.tasks[t].sending.Some? && s.tasks[t].sending.value.idx == idx
  }

  predicate TasksFit(tasks: map<nat, Task>, n: nat) {
    && (forall t :: t in tasks ==> InRange(tasks[t].queue, n))
    && (forall t :: t in tasks && tasks[t].sending.Some? ==> tasks[t].sending.value.idx < n)
  }

  predicate WellFormed(s: System) {
    Ready(s.entities, s.store.values) && s.store.Fits(s.entities) && TasksFit(s.tasks, |s.entities|)
  }

  predicate Enabled(s: System, e: Event) {
    match e
    case Report(entity, attr, _, _) => s.store.Has(entity, attr)
    case Guess(entity, attr, _, _) => s.store.Has(entity, attr)
    case Begin(t) => t !in s.tasks
    case Start(t) => t in s.tasks && s.tasks[t].sending.None? && s.tasks[t].queue != []
    case Deliver(t) => t in s.tasks && s.tasks[t].sending.Some?
    case Complete(t) => t in s.tasks && s.tasks[t].sending.Some? && s.tasks[t].sending.value.delivered
    case Stop(t) => t in s.tasks
  }

  /** The publishes of `idx` under way are no longer clean. */
  function Spoiled(tasks: map<nat, Task>, idx: nat): map<nat, Task> {
    map t | t in tasks ::
      if tasks[t].sending.Some? && tasks[t].sending.value.idx == idx then
        tasks[t].(sending := Some(tasks[t].sending.value.(clean := false)))
      else tasks[t]
  }

  function Write(s: System, entity: nat, store: Store): System
    requires entity < |s.store.values| && entity < |store.values|
  {
    if store.values[entity] != s.store.values[entity] && BeingSent(s, entity) then
      s.(store := store, raced := s.raced + {entity}, tasks := Spoiled(s.tasks, entity))
    else s.(store := store)
  }

  function Step(s: System, e: Event): System
    requires WellFormed(s) && Enabled(s, e)
  {
    match e
    case Report(entity, attr, value, bits) => Write(s, entity, Applied(s.store, entity, attr, value, bits))
    case Guess(entity, attr, value, bits) => Write(s, entity, Marked(s.store, entity, attr, value, bits))
    case Begin(t) => s.(tasks := s.tasks[t := Task(Ascending(s.store.dirty, |s.entities|), None)])
    case Start(t) =>
      var idx, rest := s.tasks[t].queue[0], s.tasks[t].queue[1..];
      var payload := PayloadOf(s.entities[idx], s.store.values[idx]);
      if payload.None? then s.(tasks := s.tasks - {t})
      else
        var sending := Sending(idx, payload.value, false, !BeingSent(s, idx));
        s.(tasks := Spoiled(s.tasks, idx)[t := Task(rest, Some(sending))])
    case Deliver(t) =>
      var sending := s.tasks[t].sending.value;
      s.(retained := s.retained[s.entities[sending.idx].stateTopic := sending.payload],
      tasks := s.tasks[t := s.tasks[t].(sending := Some(sending.(delivered := true)))])
    case Complete(t) =>
      var sending := s.tasks[t].sending.value;
      s.(store := s.store.(dirty := s.store.dirty - {sending.idx}),
      raced := s.raced - (if sending.clean then {sending.idx} else {}),
      tasks := s.tasks[t := s.tasks[t].(sending := None)])
    case Stop(t) => s.(tasks := s.tasks - {t})
  }

  predicate DistinctTopics(entities: seq<Entity>) {
    forall i, j :: 0 <= i < j < |entities| ==> entities[i].stateTopic != entities[j].stateTopic
  }

  /** The broker holds the payload built from the entity's current values. */
  predicate Published(s: System, i: nat)
    requires WellFormed(s) && i < |s.entities|
  {
    s.entities[i].stateTopic in s.retained &&
    PayloadOf(s.entities[i], s.store.values[i]) == Some(s.retained[s.entities[i].stateTopic])
  }

  /** The message of a publish under way is the current payload, and is current once delivered. */
  predicate SendsCurrent(s: System, sending: Sending)
    requires WellFormed(s) && sending.idx < |s.entities|
  {
    PayloadOf(s.entities[sending.idx], s.store.values[sending.idx]) == Some(sending.payload) &&
    (sending.delivered ==> Published(s, sending.idx))
  }

  /** No other publish of the same entity is under way. */
  predicate Alone(s: System, t: nat)
    requires t in s.tasks && s.tasks[t].sending.Some?
  {
    var idx := s.tasks[t].sending.value.idx;
    forall u :: u in s.tasks && s.tasks[u].sending.Some? && s.tasks[u].sending.value.idx == idx ==> u == t
  }

  /** A publish that is clean, or of an entity that has not raced, sends what is current. */
  predicate TaskInv(s: System, t: nat)
    requires WellFormed(s) && t in s.tasks && s.tasks[t].sending.Some?
  {
    var sending := s.tasks[t].sending.value;
    && (sending.idx !in s.raced || sending.clean ==> SendsCurrent(s, sending))
    && (sending.clean ==> Alone(s, t))
  }

  ghost predicate Inv(s: System) {
    && WellFormed(s) && DistinctTopics(s.entities)
    && (forall i :: 0 <= i < |s.entities| && i !in s.store.dirty && i !in s.raced ==> Published(s, i))
    && (forall t :: t in s.tasks && s.tasks[t].sending.Some? ==> TaskInv(s, t))
  }

  /** A write that dirties what it changes. */
  predicate Writes(s: System, entity: nat, attr: nat, store: Store)
    requires WellFormed(s)
  {
    && s.store.Has(entity, attr) && store.Fits(s.entities)
    && (forall e :: 0 <= e < |s.entities| && e != entity ==> store.values[e] == s.store.values[e])
    && (store.dirty == s.store.dirty || store.dirty == s.store.dirty + {entity})
    && (store.values[entity] != s.store.values[entity] ==> entity in store.dirty)
  }

  lemma WriteIsWellFormed(s: System, entity: nat, attr: nat, store: Store)
    requires WellFormed(s) && Writes(s, entity, attr, store)
    ensures WellFormed(Write(s, entity, store))
  {
    SpoiledFit(s.tasks, entity, |s.entities|);
    hide TasksFit, BeingSent, Spoiled;
  }

  lemma WriteKeepsTask(s: System, entity: nat, attr: nat, store: Store, k: nat)
    requires Inv(s) && Writes(s, entity, attr, store) && k in s.tasks && s.tasks[k].sending.Some?
    ensures var n := Write(s, entity, store);
            WellFormed(n) && k in n.tasks && n.tasks[k].sending.Some? && TaskInv(n, k)
  {
    WriteIsWellFormed(s, entity, attr, store);
    hide PayloadOf, Ready, InRange, DistinctTopics;
    assert TaskInv(s, k);
    assert BeingSent(s, s.tasks[k].sending.value.idx);
  }

  lemma WriteKeepsInv(s: System, entity: nat, attr: nat, store: Store)
    requires Inv(s) && Writes(s, entity, attr, store)
    ensures Inv(Write(s, entity, store))
  {
    var n := Write(s, entity, store);
    WriteIsWellFormed(s, entity, attr, store);
    hide PayloadOf, TaskInv, DistinctTopics, BeingSent, Ready;
    forall i | 0 <= i < |n.entities| && i !in n.store.dirty && i !in n.raced ensures Published(n, i) {
      assert Published(s, i);
    }
    forall k | k in n.tasks && n.tasks[k].sending.Some? ensures TaskInv(n, k) {
      WriteKeepsTask(s, entity, attr, store, k);
    }
  }

  lemma SpoiledFit(tasks: map<nat, Task>, idx: nat, n: nat)
    requires TasksFit(tasks, n)
    ensures TasksFit(Spoiled(tasks, idx), n)
  {
    hide InRange;
  }

  lemma StartKeepsOtherTask(s: System, t: nat, k: nat)
    requires Inv(s) && Enabled(s, Start(t)) && WellFormed(Step(s, Start(t))) && k != t
    requires k in Step(s, Start(t)).tasks && Step(s, Start(t)).tasks[k].sending.Some?
    ensures TaskInv(Step(s, Start(t)), k)
  {
    hide PayloadOf, DistinctTopics, Ready, InRange;
    assert TaskInv(s, k);
    var n := Step(s, Start(t));
    if n.tasks[k].sending.value.idx == s.tasks[t].queue[0] {
      assert !n.tasks[k].sending.value.clean;
    } else {
      assert n.tasks[k] == s.tasks[k];
    }
  }

  lemma StartKeepsTask(s: System, t: nat, k: nat)
    requires Inv(s) && Enabled(s, Start(t)) && WellFormed(Step(s, Start(t)))
    requires k in Step(s, Start(t)).tasks && Step(s, Start(t)).tasks[k].sending.Some?
    ensures TaskInv(Step(s, Start(t)), k)
  {
    hide PayloadOf, DistinctTopics, Ready, InRange, TasksFit;
    if k != t {
      StartKeepsOtherTask(s, t, k);
    }
  }

  lemma StartKeepsInv(s: System, t: nat)
    requires Inv(s) && Enabled(s, Start(t))
    ensures Inv(Step(s, Start(t)))
  {
    hide PayloadOf, TaskInv, DistinctTopics, Ready;
    var next := Step(s, Start(t));
    SpoiledFit(s.tasks, s.tasks[t].queue[0], |s.entities|);
    assert InRange(s.tasks[t].queue, |s.entities|);
    hide Spoiled;
    assert WellFormed(next);
    hide TasksFit, InRange;
    forall i | 0 <= i < |next.entities| && i !in next.store.dirty && i !in next.raced ensures Published(next, i) {
      assert Published(s, i);
    }
    forall k | k in next.tasks && next.tasks[k].sending.Some? ensures TaskInv(next, k) {
      StartKeepsTask(s, t, k);
    }
  }

  lemma DeliverKeepsInv(s: System, t: nat)
    requires Inv(s) && Enabled(s, Deliver(t))
    ensures Inv(Step(s, Deliver(t)))
  {
    hide PayloadOf;
    var next, sending := Step(s, Deliver(t)), s.tasks[t].sending.value;
    assert WellFormed(next);
    assert TaskInv(s, t);
    forall i | 0 <= i < |next.entities| && Published(s, i) && (i == sending.idx ==> SendsCurrent(s, sending))
      ensures Published(next, i)
    {
      if i != sending.idx {
        assert s.entities[i].stateTopic != s.entities[sending.idx].stateTopic;
      }
    }
    forall k | k in next.tasks && next.tasks[k].sending.Some? ensures TaskInv(next, k) {
      assert TaskInv(s, k);
      if next.tasks[k].sending.value.idx == sending.idx && k != t {
        assert s.tasks[k].sending.value.clean ==> Alone(s, k);
      }
    }
  }

  lemma CompleteKeepsInv(s: System, t: nat)
    requires Inv(s) && Enabled(s, Complete(t))
    ensures Inv(Step(s, Complete(t)))
  {
    hide PayloadOf;
    var next, sending := Step(s, Complete(t)), s.tasks[t].sending.value;
    assert WellFormed(next);
    assert TaskInv(s, t);
    forall i | 0 <= i < |next.entities| && i !in next.store.dirty && i !in next.raced ensures Published(next, i) {
      if i == sending.idx {
        assert SendsCurrent(s, sending);
      }
      assert Published(s, i);
    }
    forall k | k in next.tasks && next.tasks[k].sending.Some? ensures TaskInv(next, k) {
      assert TaskInv(s, k);
      assert sending.clean ==> Alone(s, t);
    }
  }

  lemma StepKeepsInv(s: System, e: Event)
    requires Inv(s) && Enabled(s, e)
    ensures Inv(Step(s, e))
  {
    hide PayloadOf;
    match e
    case Report(entity, attr, value, bits) =>
      WriteKeepsInv(s, entity, attr, Applied(s.store, entity, attr, value, bits));
    case Guess(entity, attr, value, bits) =>
      WriteKeepsInv(s, entity, attr, Marked(s.store, entity, attr, value, bits));
    case Start(t) => StartKeepsInv(s, t);
    case Deliver(t) => DeliverKeepsInv(s, t);
    case Complete(t) => CompleteKeepsInv(s, t);
    case _ => OtherStepKeepsInv(s, e);
  }

  lemma OtherStepKeepsInv(s: System, e: Event)
    requires Inv(s) && Enabled(s, e) && (e.Begin? || e.Stop?)
    ensures Inv(Step(s, e))
  {
    hide PayloadOf;
    var next := Step(s, e);
    assert WellFormed(next);
    forall k | k in next.tasks && next.tasks[k].sending.Some? ensures TaskInv(next, k) {
      assert TaskInv(s, k);
    }
  }

  // ---------------------------------------------------------------- runs

  ghost predicate Legal(s: System, run: seq<Event>)
    decreases |run|
  {
    run == [] || (WellFormed(s) && Enabled(s, run[0]) && Legal(Step(s, run[0]), run[1..]))
  }

  ghost function After(s: System, run: seq<Event>): System
    requires Legal(s, run)
    decreases |run|
  {
    if run == [] then s else After(Step(s, run[0]), run[1..])
  }

  /**
   Over any run of reports, guesses and flushes, whichever publishes fail and however they overlap, an
   entity that is not dirty is published as it is, unless it changed during one of its own publishes and has
   not had a clean publish since.
   */
  lemma {:induction false} CleanEntitiesArePublished(s: System, run: seq<Event>)
    requires Inv(s) && Legal(s, run)
    ensures Inv(After(s, run))
    decreases |run|
  {
    if run != [] {
      StepKeepsInv(s, run[0]);
      CleanEntitiesArePublished(Step(s, run[0]), run[1..]);
    }
  }

  /** A race is healed by the next publish of the entity that is alone and during which it does not change. */
  lemma CleanPublishHeals(s: System, t: nat)
    requires Inv(s) && Enabled(s, Complete(t)) && s.tasks[t].sending.value.clean
    ensures var next, idx := Step(s, Complete(t)), s.tasks[t].sending.value.idx;
            idx !in next.raced && WellFormed(next) && idx < |next.entities| && Published(next, idx)
  {
    hide PayloadOf;
    assert TaskInv(s, t);
    assert WellFormed(Step(s, Complete(t)));
  }

  lemma {:induction false} AscendingOfNone(from: set<nat>, n: nat)
    requires forall i :: i in from ==> i >= n
    ensures Ascending(from, n) == []
  {
    if n > 0 {
      AscendingOfNone(from, n - 1);
    }
  }

  lemma {:induction false} AscendingOfOne(idx: nat, n: nat)
    requires idx < n
    ensures Ascending({idx}, n) == [idx]
  {
    if n - 1 == idx {
      AscendingOfNone({idx}, n - 1);
    } else {
      AscendingOfOne(idx, n - 1);
    }
  }

  /** A publish of `payload` under way, and no other. */
  function InPublish(s: System, t: nat, idx: nat, payload: Payload, clean: bool): System {
    s.(tasks := map[t := Task([], Some(Sending(idx, payload, false, clean)))])
  }

  lemma RunOfTwo(s: System, d: Event, e: Event)
    requires WellFormed(s) && Enabled(s, d) && WellFormed(Step(s, d)) && Enabled(Step(s, d), e)
    ensures Legal(s, [d, e]) && After(s, [d, e]) == Step(Step(s, d), e)
  {
    hide Step, Enabled, WellFormed;
    var s1 := Step(s, d);
    var s2 := Step(s1, e);
    assert [d, e][1..] == [e] && [e][1..] == [];
    assert Legal(s1, [e]) && After(s1, [e]) == s2;
  }

  lemma PublishBegins(s: System, t: nat, idx: nat) returns (run: seq<Event>)
    requires WellFormed(s) && s.tasks == map[] && s.store.dirty == {idx} && idx < |s.entities|
    requires PayloadOf(s.entities[idx], s.store.values[idx]).Some?
    ensures Legal(s, run)
    ensures After(s, run) == InPublish(s, t, idx, PayloadOf(s.entities[idx], s.store.values[idx]).value, true)
  {
    hide PayloadOf;
    run := [Begin(t), Start(t)];
    AscendingOfOne(idx, |s.entities|);
    var s1 := Step(s, Begin(t));
    assert s1 == s.(tasks := map[t := Task([idx], None)]);
    hide Ascending;
    StartOfOne(s1, t, idx);
    RunOfTwo(s, Begin(t), Start(t));
  }

  lemma StartOfOne(s: System, t: nat, idx: nat)
    requires WellFormed(s) && idx < |s.entities| && s.tasks == map[t := Task([idx], None)]
    requires PayloadOf(s.entities[idx], s.store.values[idx]).Some?
    ensures Enabled(s, Start(t))
    ensures Step(s, Start(t)) == InPublish(s, t, idx, PayloadOf(s.entities[idx], s.store.values[idx]).value, true)
  {
    hide PayloadOf;
    assert !BeingSent(s, idx) && [idx][1..] == [];
    assert Spoiled(s.tasks, idx) == s.tasks;
  }

  /** The broker gets the message, and then the flush hears of it. */
  function Done(s: System, t: nat): System
    requires WellFormed(s) && t in s.tasks && s.tasks[t].sending.Some?
  {
    var sending := s.tasks[t].sending.value;
    s.(store := s.store.(dirty := s.store.dirty - {sending.idx}),
    retained := s.retained[s.entities[sending.idx].stateTopic := sending.payload],
    raced := s.raced - (if sending.clean then {sending.idx} else {}),
    tasks := s.tasks[t := Task(s.tasks[t].queue, None)])
  }

  lemma DeliverAndComplete(s: System, t: nat)
    requires WellFormed(s) && t in s.tasks && s.tasks[t].sending.Some?
    ensures Legal(s, [Deliver(t), Complete(t)])
    ensures After(s, [Deliver(t), Complete(t)]) == Done(s, t) && WellFormed(Done(s, t))
  {
    hide PayloadOf, Ready, InRange;
    var s1, s2 := Step(s, Deliver(t)), Done(s, t);
    assert TasksFit(s1.tasks, |s.entities|) && TasksFit(s2.tasks, |s.entities|);
    hide TasksFit;
    assert WellFormed(s1) && Enabled(s1, Complete(t)) && WellFormed(s2);
    assert Step(s1, Complete(t)) == s2;
    hide Step, WellFormed, Enabled, Done;
    RunOfTwo(s, Deliver(t), Complete(t));
  }

  lemma PublishEnds(s: System, t: nat, idx: nat, payload: Payload) returns (run: seq<Event>)
    requires WellFormed(s) && idx < |s.entities| && s == InPublish(s, t, idx, payload, false)
    ensures Legal(s, run)
    ensures After(s, run) == s.(store := s.store.(dirty := s.store.dirty - {idx}), tasks := map[],
            retained := s.retained[s.entities[idx].stateTopic := payload])
  {
    assert t in s.tasks && s.tasks[t] == Task([], Some(Sending(idx, payload, false, false)));
    DeliverAndComplete(s, t);
    var done, stop := Done(s, t), [Stop(t)];
    assert done.tasks - {t} == map[];
    assert Enabled(done, Stop(t)) && Step(done, Stop(t)) == done.(tasks := map[]);
    hide Step, Enabled, WellFormed, Done, InPublish;
    var end := done.(tasks := map[]);
    assert stop[1..] == [] && Legal(end, []) && After(end, []) == end;
    assert Legal(done, stop) && After(done, stop) == end;
    RunsCompose(s, [Deliver(t), Complete(t)], stop);
    run := [Deliver(t), Complete(t)] + stop;
  }

  lemma RunThrough(s: System, first: seq<Event>, e: Event, last: seq<Event>)
    requires Legal(s, first) && WellFormed(After(s, first)) && Enabled(After(s, first), e)
    requires Legal(Step(After(s, first), e), last)
    ensures Legal(s, first + ([e] + last))
    ensures After(s, first + ([e] + last)) == After(Step(After(s, first), e), last)
  {
    assert ([e] + last)[1..] == last;
    RunsCompose(s, first, [e] + last);
  }

  /** A report on the entity whose publish is under way. */
  lemma LateReport(s: System, t: nat, idx: nat, payload: Payload, attr: nat, value: Json)
    requires WellFormed(s) && s.store.dirty == {idx} && s.store.Has(idx, attr) && idx < |s.entities|
    requires !Same(s.store.values[idx][attr], value)
    ensures var sending := InPublish(s, t, idx, payload, true);
            && WellFormed(sending) && Enabled(sending, Report(idx, attr, value, 0))
            && var changed := Step(sending, Report(idx, attr, value, 0));
               && WellFormed(changed) && changed == InPublish(changed, t, idx, payload, false)
               && changed.store.dirty == {idx} && changed.entities == s.entities && changed.raced == s.raced + {idx}
               && changed.store.values[idx] == s.store.values[idx][attr := value] && changed.retained == s.retained
  {
    var sending, store := InPublish(s, t, idx, payload, true), Applied(s.store, idx, attr, value, 0);
    NewsIsStored(s.store, s.entities, idx, attr, value);
    hide Applied, Same;
    assert sending.tasks[t].sending.value.idx == idx;
    assert BeingSent(sending, idx);
    assert TasksFit(sending.tasks, |s.entities|);
    assert Spoiled(sending.tasks, idx) == InPublish(s, t, idx, payload, false).tasks;
    SpoiledFit(sending.tasks, idx, |s.entities|);
    hide TasksFit, BeingSent, Spoiled;
  }

  lemma NewsIsStored(s: Store, entities: seq<Entity>, idx: nat, attr: nat, value: Json)
    requires Ready(entities, s.values) && s.Fits(entities) && s.Has(idx, attr) && idx < |entities|
    requires !Same(s.values[idx][attr], value) && s.dirty == {idx}
    ensures var n := Applied(s, idx, attr, value, 0);
            && Ready(entities, n.values) && n.Fits(entities) && n.dirty == {idx}
            && n.values[idx] == s.values[idx][attr := value] && n.values[idx] != s.values[idx]
  {
    assert s.values[idx][attr := value][attr] == value;
    assert s.values[idx][attr] != value;
    hide Same;
  }

  /**
   Why the exception is needed: let a report change an entity's payload while that payload is being
   published, and the discard after the publish forgets the change. The flush ends with nothing
   dirty, no publish under way, and an old payload at the broker.
   */
  lemma ChangeDuringPublishIsLost(s: System, t: nat, idx: nat, attr: nat, value: Json) returns (run: seq<Event>)
    requires WellFormed(s) && s.tasks == map[] && s.store.dirty == {idx} && s.store.Has(idx, attr)
    requires !Same(s.store.values[idx][attr], value)
    requires var before, after := PayloadOf(s.entities[idx], s.store.values[idx]),
                               PayloadOf(s.entities[idx], s.store.values[idx][attr := value]);
             before.Some? && before != after
    ensures Legal(s, run) && WellFormed(After(s, run))
    ensures After(s, run).store.dirty == {} && After(s, run).tasks == map[] && |After(s, run).entities| == |s.entities|
    ensures !Published(After(s, run), idx) && idx in After(s, run).raced
  {
    hide PayloadOf;
    var payload := PayloadOf(s.entities[idx], s.store.values[idx]).value;
    var first := PublishBegins(s, t, idx);
    LateReport(s, t, idx, payload, attr, value);
    var sending, report := After(s, first), Report(idx, attr, value, 0);
    var changed := Step(sending, report);
    hide Step, Enabled, InPublish, Same;
    var last := PublishEnds(changed, t, idx, payload);
    RunThrough(s, first, report, last);
    run := first + ([report] + last);
  }


  // ---------------------------------------------------------------- the flush as a run

  lemma {:induction false} RunsCompose(s: System, first: seq<Event>, rest: seq<Event>)
    requires Legal(s, first) && Legal(After(s, first), rest)
    ensures Legal(s, first + rest) && After(s, first + rest) == After(After(s, first), rest)
    decreases |first|
  {
    hide Step, Enabled, WellFormed;
    if first == [] {
      assert first + rest == rest;
    } else {
      assert (first + rest)[1..] == first[1..] + rest;
      RunsCompose(Step(s, first[0]), first[1..], rest);
    }
  }

  /** The whole state of a flush that nothing interrupts, seen as a state of the system. */
  ghost predicate Shows(s: System, f: Flush) {
    s.store.dirty == f.dirty && s.retained == f.retained
  }

  /** The state in which the first publish of the queue is under way. */
  lemma StartSends(s: System, t: nat)
    requires WellFormed(s) && Enabled(s, Start(t))
    requires PayloadOf(s.entities[s.tasks[t].queue[0]], s.store.values[s.tasks[t].queue[0]]).Some?
    ensures var idx := s.tasks[t].queue[0];
            var payload := PayloadOf(s.entities[idx], s.store.values[idx]).value;
            var sending := Sending(idx, payload, false, !BeingSent(s, idx));
            && Step(s, Start(t)) ==
               s.(tasks := Spoiled(s.tasks, idx)[t := Task(s.tasks[t].queue[1..], Some(sending))])
            && WellFormed(Step(s, Start(t)))
  {
    hide PayloadOf, Ready, Spoiled, BeingSent;
    SpoiledFit(s.tasks, s.tasks[t].queue[0], |s.entities|);
  }

  lemma {:induction false} PublishIsThreeSteps(s: System, t: nat) returns (run: seq<Event>)
    requires WellFormed(s) && Enabled(s, Start(t))
    requires PayloadOf(s.entities[s.tasks[t].queue[0]], s.store.values[s.tasks[t].queue[0]]).Some?
    ensures Legal(s, run)
    ensures var idx := s.tasks[t].queue[0];
            var payload := PayloadOf(s.entities[idx], s.store.values[idx]).value;
            After(s, run) == s.(
            store := s.store.(dirty := s.store.dirty - {idx}),
            retained := s.retained[s.entities[idx].stateTopic := payload],
            raced := s.raced - (if BeingSent(s, idx) then {} else {idx}),
            tasks := Spoiled(s.tasks, idx)[t := Task(s.tasks[t].queue[1..], None)])
  {
    hide PayloadOf, Step, WellFormed, BeingSent, Spoiled;
    StartSends(s, t);
    var a := Step(s, Start(t));
    DeliverAndComplete(a, t);
    assert [Start(t)][1..] == [] && Legal(a, []) && After(a, []) == a;
    assert Legal(s, [Start(t)]) && After(s, [Start(t)]) == a;
    RunsCompose(s, [Start(t)], [Deliver(t), Complete(t)]);
    run := [Start(t)] + [Deliver(t), Complete(t)];
    var idx := s.tasks[t].queue[0];
    assert Done(a, t).tasks == Spoiled(s.tasks, idx)[t := Task(s.tasks[t].queue[1..], None)];
  }

  /** One publish of the flush, as three steps of the system. */
  lemma OnePublishFurther(s: System, t: nat, f: Flush) returns (run: seq<Event>)
    requires WellFormed(s) && Enabled(s, Start(t)) && Shows(s, f)
    requires PayloadOf(s.entities[s.tasks[t].queue[0]], s.store.values[s.tasks[t].queue[0]]).Some?
    ensures Legal(s, run)
    ensures var n, idx := After(s, run), s.tasks[t].queue[0];
            var payload := PayloadOf(s.entities[idx], s.store.values[idx]).value;
            && WellFormed(n) && t in n.tasks && n.tasks[t] == Task(s.tasks[t].queue[1..], None)
            && n.entities == s.entities && n.store.values == s.store.values
            && n.store.dirty == f.dirty - {idx} && n.retained == f.retained[s.entities[idx].stateTopic := payload]
  {
    hide PayloadOf, Ready;
    run := PublishIsThreeSteps(s, t);
    var n, idx := After(s, run), s.tasks[t].queue[0];
    hide Legal, After;
    SpoiledFit(s.tasks, idx, |s.entities|);
    hide Spoiled;
    assert TasksFit(n.tasks, |s.entities|);
  }

  /** The uninterrupted flush of the publisher is one of the runs the system can make. */
  lemma {:induction false} FlushIsARun(s: System, t: nat, f: Flush) returns (run: seq<Event>)
    requires WellFormed(s) && t in s.tasks && s.tasks[t].sending.None? && Shows(s, f) && !f.raised
    ensures Legal(s, run)
    ensures Shows(After(s, run), Flushed(s.entities, s.store.values, s.tasks[t].queue, f))
    ensures After(s, run).store.values == s.store.values && After(s, run).entities == s.entities
    decreases |s.tasks[t].queue|
  {
    hide PayloadOf;
    run := [];
    var queue := s.tasks[t].queue;
    if queue != [] {
      assert Enabled(s, Start(t)) && InRange(queue, |s.entities|);
      hide Step, Enabled, Ready;
      var payload := PayloadOf(s.entities[queue[0]], s.store.values[queue[0]]);
      if payload.Some? && f.credit > 0 {
        var first := OnePublishFurther(s, t, f);
        var next := After(s, first);
        hide WellFormed, Legal, After;
        var rest := FlushIsARun(next, t,
          Flush(f.dirty - {queue[0]}, f.retained[s.entities[queue[0]].stateTopic := payload.value],
                f.published + 1, f.credit - 1, false));
        RunsCompose(s, first, rest);
        run := first + rest;
      }
    }
  }
}
