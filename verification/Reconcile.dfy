/**
 Unconfirmed commands, `bus/reconcile.py`: a command's guess is marked in the store's bitmask and a timer
 is armed; the SysAP's echo clears the mark, or the timer ends in one rate-limited read of the truth.

 One step is the code between two `await`s; `tasks` holds the coroutines that sleep or wait for a read.
 */
module Reconcile {
  import opened Wrappers
  import opened Values
  import opened Bits
  import opened State

  type TaskId = nat

  datatype Target = Target(entity: nat, attr: nat)

  /** `OtherRead` is the read of a failed write, or of a `/get`, which reads its attributes in turn. */
  datatype Phase =
    | Waiting(target: Target, armedAt: real)
    | TimerRead(target: Target)
    | OtherRead(queue: seq<Target>)

  datatype Grant = Grant(entity: nat, at: real)

  /** `granted` and `abandoned` are history: the reads allowed, and the timers that ended in no answer. */
  datatype Machine = Machine(
    delay: real,
    minInterval: real,
    store: Store,
    last: map<nat, real>,
    timers: map<Target, TaskId>,
    tasks: map<TaskId, Phase>,
    nextId: TaskId,
    clock: real,
    granted: seq<Grant>,
    abandoned: set<Target>)

  datatype Event =
    | Command(target: Target, value: Json, confirm: bool)
    | Report(target: Target, value: Json)
    | Fire(id: TaskId)
    | WriteFailed(target: Target)
    | Get(entity: nat, targets: seq<Target>)
    | ReadDone(id: TaskId, value: Json)
    | ReadFailed(id: TaskId)

  datatype Stamped = Stamped(at: real, event: Event)

  predicate Known(m: Machine, t: Target) {
    m.store.Has(t.entity, t.attr)
  }

  /** The limiter's answer: the entity's last read is too recent. */
  predicate Refuses(m: Machine, entity: nat, now: real) {
    entity in m.last && now - m.last[entity] < m.minInterval
  }

  function Granted(m: Machine, entity: nat, now: real): Machine {
    m.(last := m.last[entity := now], granted := m.granted + [Grant(entity, now)])
  }

  function Spawned(m: Machine, phase: Phase): Machine {
    m.(tasks := m.tasks[m.nextId := phase], nextId := m.nextId + 1)
  }

  /** Arm or re-arm the timer of one attribute. */
  function Scheduled(m: Machine, t: Target, now: real): Machine {
    m.(tasks := (if t in m.timers then m.tasks - {m.timers[t]} else m.tasks)[m.nextId := Waiting(t, now)],
    timers := m.timers[t := m.nextId],
    nextId := m.nextId + 1,
    abandoned := m.abandoned - {t})
  }

  function Commanded(m: Machine, t: Target, value: Json, confirm: bool, now: real): Machine
    requires Known(m, t)
  {
    var s := m.(store := Marked(m.store, t.entity, t.attr, value, Pow2(t.attr)));
    if confirm then Scheduled(s, t, now) else s
  }

  /** The timer's end: nothing to do if the mark is gone, else at most one read. */
  function Fired(m: Machine, id: TaskId, now: real): Machine
    requires id in m.tasks && m.tasks[id].Waiting? && Known(m, m.tasks[id].target)
  {
    var t := m.tasks[id].target;
    var s := m.(timers := m.timers - {t});
    if And(m.store.unconfirmed[t.entity], Pow2(t.attr)) == 0 then s.(tasks := m.tasks - {id})
    else if Refuses(m, t.entity, now) then s.(tasks := m.tasks - {id}, abandoned := m.abandoned + {t})
    else Granted(s, t.entity, now).(tasks := m.tasks[id := TimerRead(t)])
  }

  function Asked(m: Machine, entity: nat, targets: seq<Target>, now: real): Machine {
    if Refuses(m, entity, now) then m
    else if targets == [] then Granted(m, entity, now)
    else Spawned(Granted(m, entity, now), OtherRead(targets))
  }

  function Head(p: Phase): Target
    requires p.TimerRead? || (p.OtherRead? && p.queue != [])
  {
    if p.TimerRead? then p.target else p.queue[0]
  }

  /** The coroutine goes on to the next attribute of its request, or ends. */
  function Advanced(tasks: map<TaskId, Phase>, id: TaskId): map<TaskId, Phase>
    requires id in tasks
  {
    if tasks[id].OtherRead? && |tasks[id].queue| > 1 then tasks[id := OtherRead(tasks[id].queue[1..])] else tasks - {id}
  }

  predicate Enabled(m: Machine, e: Stamped) {
    m.clock <= e.at &&
    match e.event
    case Command(t, _, _) => Known(m, t)
    case Report(t, _) => Known(m, t)
    case Fire(id) =>
      id in m.tasks && m.tasks[id].Waiting? && Known(m, m.tasks[id].target) && m.tasks[id].armedAt + m.delay <= e.at
    case WriteFailed(t) => Known(m, t)
    case Get(entity, targets) => forall t :: t in targets ==> t.entity == entity && Known(m, t)
    case ReadDone(id, _) => Reading(m, id)
    case ReadFailed(id) => Reading(m, id)
  }

  predicate Reading(m: Machine, id: TaskId) {
    id in m.tasks && !m.tasks[id].Waiting? && (m.tasks[id].OtherRead? ==> m.tasks[id].queue != []) &&
    Known(m, Head(m.tasks[id]))
  }

  function Step(m: Machine, e: Stamped): Machine
    requires Enabled(m, e)
  {
    var s := m.(clock := e.at);
    match e.event
    case Command(t, value, confirm) => Commanded(s, t, value, confirm, e.at)
    case Report(t, value) => s.(store := Applied(m.store, t.entity, t.attr, value, Pow2(t.attr)))
    case Fire(id) => Fired(s, id, e.at)
    case WriteFailed(t) => Asked(s, t.entity, [t], e.at)
    case Get(entity, targets) => Asked(s, entity, targets, e.at)
    case ReadDone(id, value) =>
      var t := Head(m.tasks[id]);
      s.(store := Applied(m.store, t.entity, t.attr, value, Pow2(t.attr)), tasks := Advanced(m.tasks, id))
    case ReadFailed(id) =>
      s.(tasks := Advanced(m.tasks, id),
      abandoned := m.abandoned + if m.tasks[id].TimerRead? then {m.tasks[id].target} else {})
  }

  predicate Legal(m: Machine, run: seq<Stamped>)
    decreases |run|
  {
    run == [] || (Enabled(m, run[0]) && Legal(Step(m, run[0]), run[1..]))
  }

  function After(m: Machine, run: seq<Stamped>): Machine
    requires Legal(m, run)
    decreases |run|
  {
    if run == [] then m else After(Step(m, run[0]), run[1..])
  }

  function Initial(delay: real, minInterval: real, store: Store, clock: real): Machine {
    Machine(delay, minInterval, store, map[], map[], map[], 0, clock, [], {})
  }

  // ---------------------------------------------------------------- the rate limiter

  /** `last` is the newest grant of each entity, and grants of one entity keep their distance. */
  ghost predicate BudgetInv(m: Machine) {
    && (forall i :: 0 <= i < |m.granted| ==>
          m.granted[i].at <= m.clock && m.granted[i].entity in m.last && m.granted[i].at <= m.last[m.granted[i].entity])
    && (forall e :: e in m.last ==> Grant(e, m.last[e]) in m.granted)
    && (forall i, j :: 0 <= i < j < |m.granted| && m.granted[i].entity == m.granted[j].entity ==>
          m.granted[j].at - m.granted[i].at >= m.minInterval)
  }

  lemma GrantKeepsBudget(m: Machine, entity: nat)
    requires BudgetInv(m) && !Refuses(m, entity, m.clock)
    ensures BudgetInv(Granted(m, entity, m.clock))
  {
    var n := Granted(m, entity, m.clock);
    forall e | e in n.last ensures Grant(e, n.last[e]) in n.granted {
      if e == entity {
        assert n.granted[|m.granted|] == Grant(entity, m.clock);
      } else {
        assert Grant(e, m.last[e]) in m.granted;
      }
    }
  }

  lemma SameBudget(m: Machine, n: Machine)
    requires BudgetInv(m) && n.granted == m.granted && n.last == m.last && n.minInterval == m.minInterval
    requires m.clock <= n.clock
    ensures BudgetInv(n)
  {
  }

  /** Which entity the step spends budget of, if any. */
  function Spends(m: Machine, e: Stamped): Option<nat>
    requires Enabled(m, e)
  {
    match e.event
    case Fire(id) => if StartsRead(m, e) then Some(m.tasks[id].target.entity) else None
    case WriteFailed(t) => if Refuses(m, t.entity, e.at) then None else Some(t.entity)
    case Get(entity, _) => if Refuses(m, entity, e.at) then None else Some(entity)
    case _ => None
  }

  lemma BudgetAfterStep(m: Machine, e: Stamped)
    requires Enabled(m, e)
    ensures var n, g := Step(m, e), Granted(m, if Spends(m, e).Some? then Spends(m, e).value else 0, e.at);
            && n.clock == e.at && n.minInterval == m.minInterval
            && if Spends(m, e).Some? then n.granted == g.granted && n.last == g.last
               else n.granted == m.granted && n.last == m.last
    ensures Spends(m, e).Some? ==> !Refuses(m, Spends(m, e).value, e.at)
  {
    if e.event.Fire? {
      var t := m.tasks[e.event.id].target;
      AndFinds(m.store.unconfirmed[t.entity], t.attr);
    }
    hide And, Bit, Pow2, Applied, Marked;
  }

  lemma {:induction false} StepKeepsBudget(m: Machine, e: Stamped)
    requires BudgetInv(m) && Enabled(m, e)
    ensures BudgetInv(Step(m, e)) && Step(m, e).minInterval == m.minInterval
  {
    BudgetAfterStep(m, e);
    hide BudgetInv, Step, Spends;
    var now := m.(clock := e.at);
    SameBudget(m, now);
    if Spends(m, e).Some? {
      GrantKeepsBudget(now, Spends(m, e).value);
      SameBudget(Granted(now, Spends(m, e).value, e.at), Step(m, e));
    } else {
      SameBudget(m, Step(m, e));
    }
  }

  lemma {:induction false} RunKeepsBudget(m: Machine, run: seq<Stamped>)
    requires BudgetInv(m) && Legal(m, run)
    ensures BudgetInv(After(m, run)) && After(m, run).minInterval == m.minInterval
    decreases |run|
  {
    if run != [] {
      StepKeepsBudget(m, run[0]);
      RunKeepsBudget(Step(m, run[0]), run[1..]);
    }
  }

  /** Timers, failed writes and `/get` share one budget: reads of one entity are spaced, in any run. */
  lemma ReadsAreSpaced(delay: real, minInterval: real, store: Store, clock: real, run: seq<Stamped>, i: nat, j: nat)
    requires Legal(Initial(delay, minInterval, store, clock), run)
    requires var granted := After(Initial(delay, minInterval, store, clock), run).granted;
             i < j < |granted| && granted[i].entity == granted[j].entity
    ensures var granted := After(Initial(delay, minInterval, store, clock), run).granted;
            granted[j].at - granted[i].at >= minInterval
  {
    RunKeepsBudget(Initial(delay, minInterval, store, clock), run);
  }

  /** A read is refused exactly when the same entity was granted one less than the interval ago. */
  lemma RefusedExactlyWhenRecent(
    delay: real, minInterval: real, store: Store, clock: real, run: seq<Stamped>, entity: nat, now: real)
    requires Legal(Initial(delay, minInterval, store, clock), run)
    ensures var m := After(Initial(delay, minInterval, store, clock), run);
            Refuses(m, entity, now) <==>
            exists i :: 0 <= i < |m.granted| && m.granted[i].entity == entity && now - m.granted[i].at < minInterval
  {
    RunKeepsBudget(Initial(delay, minInterval, store, clock), run);
    var m := After(Initial(delay, minInterval, store, clock), run);
    if Refuses(m, entity, now) {
      assert Grant(entity, m.last[entity]) in m.granted;
      var i :| 0 <= i < |m.granted| && m.granted[i] == Grant(entity, m.last[entity]);
    }
  }

  // ---------------------------------------------------------------- marks and timers

  predicate IsMarked(m: Machine, t: Target) {
    Known(m, t) && m.store.Unconfirmed(t.entity, t.attr)
  }

  /** Every armed timer is one sleeping coroutine, and every sleeping coroutine is the armed timer. */
  predicate TimersAreTasks(m: Machine) {
    && (forall id :: id in m.tasks ==> id < m.nextId)
    && (forall id :: id in m.tasks && m.tasks[id].Waiting? ==>
          m.tasks[id].target in m.timers && m.timers[m.tasks[id].target] == id)
    && (forall t :: t in m.timers ==>
          m.timers[t] in m.tasks && m.tasks[m.timers[t]].Waiting? && m.tasks[m.timers[t]].target == t)
  }

  predicate InFlight(m: Machine, t: Target) {
    exists id :: id in m.tasks && m.tasks[id] == TimerRead(t)
  }

  predicate Watched(m: Machine, t: Target) {
    t in m.timers || InFlight(m, t) || t in m.abandoned
  }

  /** Someone will still resolve the mark, or its timer ended without an answer. */
  predicate MarkInv(m: Machine, t: Target) {
    IsMarked(m, t) ==> Watched(m, t)
  }

  /** A command on `t` that does not ask for a confirmation. */
  predicate Unwatches(e: Stamped, t: Target) {
    e.event.Command? && e.event.target == t && !e.event.confirm
  }

  lemma ScheduleKeepsTimers(m: Machine, t: Target, now: real)
    requires TimersAreTasks(m)
    ensures TimersAreTasks(Scheduled(m, t, now))
  {
  }

  lemma FireKeepsTimers(m: Machine, id: TaskId, now: real)
    requires TimersAreTasks(m) && id in m.tasks && m.tasks[id].Waiting? && Known(m, m.tasks[id].target)
    ensures TimersAreTasks(Fired(m, id, now))
  {
    hide Known, Refuses, And, Pow2;
  }

  lemma AskKeepsTimers(m: Machine, entity: nat, targets: seq<Target>, now: real)
    requires TimersAreTasks(m)
    ensures TimersAreTasks(Asked(m, entity, targets, now))
  {
    hide Refuses;
  }

  lemma SameTimers(m: Machine, n: Machine)
    requires TimersAreTasks(m) && n.timers == m.timers && n.tasks == m.tasks && n.nextId == m.nextId
    ensures TimersAreTasks(n)
  {
  }

  lemma AdvanceKeepsTimers(m: Machine, id: TaskId, n: Machine)
    requires TimersAreTasks(m) && id in m.tasks && !m.tasks[id].Waiting?
    requires n.timers == m.timers && n.tasks == Advanced(m.tasks, id) && n.nextId == m.nextId
    ensures TimersAreTasks(n)
  {
  }

  lemma StepKeepsTimers(m: Machine, e: Stamped)
    requires TimersAreTasks(m) && Enabled(m, e)
    ensures TimersAreTasks(Step(m, e))
  {
    var s := m.(clock := e.at);
    SameTimers(m, s);
    hide TimersAreTasks, Known, Applied, Marked, Refuses, And, Pow2;
    match e.event
    case Command(t, value, confirm) =>
      var guessed := s.(store := Marked(m.store, t.entity, t.attr, value, Pow2(t.attr)));
      SameTimers(s, guessed);
      if confirm {
        ScheduleKeepsTimers(guessed, t, e.at);
      }
    case Report(_, _) => SameTimers(s, Step(m, e));
    case Fire(id) => FireKeepsTimers(s, id, e.at);
    case WriteFailed(t) => AskKeepsTimers(s, t.entity, [t], e.at);
    case Get(entity, targets) => AskKeepsTimers(s, entity, targets, e.at);
    case ReadDone(id, _) => AdvanceKeepsTimers(m, id, Step(m, e));
    case ReadFailed(id) => AdvanceKeepsTimers(m, id, Step(m, e));
  }

  /** No event but a command sets a mark, and only on its own attribute. */
  lemma MarksAfterStep(m: Machine, e: Stamped, t: Target)
    requires Enabled(m, e)
    ensures IsMarked(Step(m, e), t) ==> IsMarked(m, t) || (e.event.Command? && e.event.target == t)
    ensures e.event.Report? && e.event.target == t ==> !IsMarked(Step(m, e), t)
    ensures e.event.ReadDone? && Head(m.tasks[e.event.id]) == t ==> !IsMarked(Step(m, e), t)
  {
    match e.event {
      case Command(u, value, _) => GuessTouchesOneAttribute(m.store, u.entity, u.attr, value);
      case Report(u, value) => ReportTouchesOneAttribute(m.store, u.entity, u.attr, value);
      case ReadDone(id, value) =>
        var u := Head(m.tasks[id]);
        ReportTouchesOneAttribute(m.store, u.entity, u.attr, value);
      case _ =>
    }
    hide Applied, Marked, Or, Clear, And, Pow2, Bit;
  }

  lemma FireKeepsMark(m: Machine, id: TaskId, now: real, t: Target)
    requires TimersAreTasks(m) && MarkInv(m, t)
    requires id in m.tasks && m.tasks[id].Waiting? && Known(m, m.tasks[id].target)
    ensures MarkInv(Fired(m, id, now), t)
  {
    var u, n := m.tasks[id].target, Fired(m, id, now);
    AndFinds(m.store.unconfirmed[u.entity], u.attr);
    hide And, Bit, Pow2, Refuses;
    assert n.store == m.store;
    if IsMarked(m, t) {
      if t == u {
        assert t in n.abandoned || n.tasks[id] == TimerRead(t);
      } else if t !in m.timers && InFlight(m, t) {
        var r :| r in m.tasks && m.tasks[r] == TimerRead(t);
        assert n.tasks[r] == TimerRead(t);
      }
    }
  }

  lemma OtherStepKeepsWatch(m: Machine, e: Stamped, t: Target)
    requires TimersAreTasks(m) && Enabled(m, e) && !e.event.Fire? && Watched(m, t)
    requires !(e.event.ReadDone? && Head(m.tasks[e.event.id]) == t)
    ensures Watched(Step(m, e), t)
  {
    hide Applied, Marked, Refuses;
    var n := Step(m, e);
    if InFlight(m, t) {
      var r :| r in m.tasks && m.tasks[r] == TimerRead(t);
      assert r in n.tasks ==> n.tasks[r] == TimerRead(t);
    }
  }

  lemma StepKeepsMark(m: Machine, e: Stamped, t: Target)
    requires TimersAreTasks(m) && MarkInv(m, t) && Enabled(m, e) && !Unwatches(e, t)
    ensures MarkInv(Step(m, e), t)
  {
    MarksAfterStep(m, e, t);
    if e.event.Fire? {
      FireKeepsMark(m.(clock := e.at), e.event.id, e.at, t);
    } else if IsMarked(Step(m, e), t) && IsMarked(m, t) {
      OtherStepKeepsWatch(m, e, t);
    }
    hide Applied, Marked, Bit, Pow2, IsMarked;
  }

  lemma {:induction false} RunKeepsMark(m: Machine, run: seq<Stamped>, t: Target)
    requires TimersAreTasks(m) && MarkInv(m, t) && Legal(m, run)
    requires forall i :: 0 <= i < |run| ==> !Unwatches(run[i], t)
    ensures TimersAreTasks(After(m, run)) && MarkInv(After(m, run), t)
    decreases |run|
  {
    hide MarkInv, TimersAreTasks, Enabled, Step;
    if run != [] {
      StepKeepsTimers(m, run[0]);
      StepKeepsMark(m, run[0], t);
      assert forall i :: 0 <= i < |run[1..]| ==> run[1..][i] == run[i + 1];
      RunKeepsMark(Step(m, run[0]), run[1..], t);
    }
  }

  /**
   An attribute that is only commanded with confirmation and is still marked has its timer armed or its
   read under way, unless its latest timer was refused a read or got no answer.
   */
  lemma {:induction false} EveryGuessIsWatched(delay: real, minInterval: real, store: Store, clock: real,
      run: seq<Stamped>, t: Target)
    requires Legal(Initial(delay, minInterval, store, clock), run)
    requires store.Has(t.entity, t.attr) ==> !store.Unconfirmed(t.entity, t.attr)
    requires forall i :: 0 <= i < |run| ==> !Unwatches(run[i], t)
    ensures var m := After(Initial(delay, minInterval, store, clock), run);
            IsMarked(m, t) ==> t in m.timers || InFlight(m, t) || t in m.abandoned
  {
    RunKeepsMark(Initial(delay, minInterval, store, clock), run, t);
  }

  // ---------------------------------------------------------------- how many reads

  /** This step starts a timer's read. */
  predicate StartsRead(m: Machine, e: Stamped) {
    Enabled(m, e) && e.event.Fire? &&
    var t := m.tasks[e.event.id].target;
    m.store.Unconfirmed(t.entity, t.attr) && !Refuses(m, t.entity, e.at)
  }

  function TimerReads(m: Machine, run: seq<Stamped>): nat
    requires Legal(m, run)
    decreases |run|
  {
    if run == [] then 0 else (if StartsRead(m, run[0]) then 1 else 0) + TimerReads(Step(m, run[0]), run[1..])
  }

  function Confirmables(run: seq<Stamped>): nat {
    if run == [] then 0 else (if run[0].event.Command? && run[0].event.confirm then 1 else 0) + Confirmables(run[1..])
  }

  lemma TimerKeysAfterStep(m: Machine, e: Stamped)
    requires Enabled(m, e)
    ensures Step(m, e).timers.Keys ==
            if e.event.Command? && e.event.confirm then m.timers.Keys + {e.event.target}
            else if e.event.Fire? then m.timers.Keys - {m.tasks[e.event.id].target}
            else m.timers.Keys
  {
    hide Applied, Marked, Known, Refuses, Bit, And;
  }

  lemma TimersAfterStep(m: Machine, e: Stamped)
    requires TimersAreTasks(m) && Enabled(m, e)
    ensures |Step(m, e).timers| + (if StartsRead(m, e) then 1 else 0) <=
            |m.timers| + if e.event.Command? && e.event.confirm then 1 else 0
  {
    TimerKeysAfterStep(m, e);
    var n := Step(m, e);
    assert StartsRead(m, e) ==> e.event.Fire?;
    hide Step, StartsRead;
    assert |n.timers| == |n.timers.Keys| && |m.timers| == |m.timers.Keys|;
    if e.event.Fire? {
      assert m.tasks[e.event.id].target in m.timers.Keys;
    }
  }

  lemma {:induction false} TimersPayForReads(m: Machine, run: seq<Stamped>)
    requires TimersAreTasks(m) && Legal(m, run)
    ensures TimerReads(m, run) + |After(m, run).timers| <= |m.timers| + Confirmables(run)
    decreases |run|
  {
    hide TimersAreTasks, Enabled, Step, StartsRead;
    if run != [] {
      StepKeepsTimers(m, run[0]);
      TimersAfterStep(m, run[0]);
      TimersPayForReads(Step(m, run[0]), run[1..]);
    }
  }

  /** There is at most one timer read for each confirmable command, in any run. */
  lemma OneReadPerCommand(delay: real, minInterval: real, store: Store, clock: real, run: seq<Stamped>)
    requires Legal(Initial(delay, minInterval, store, clock), run)
    ensures TimerReads(Initial(delay, minInterval, store, clock), run) <= Confirmables(run)
  {
    TimersPayForReads(Initial(delay, minInterval, store, clock), run);
  }

  // ---------------------------------------------------------------- what a clear mark means

  /** What the SysAP last said about `t`, in a report or an answered read. */
  function Told(m: Machine, run: seq<Stamped>, t: Target, before: Json): Json
    requires Legal(m, run)
    decreases |run|
  {
    if run == [] then before
    else
      var e := run[0].event;
      var now := if e.Report? && e.target == t then e.value
                 else if e.ReadDone? && Head(m.tasks[e.id]) == t then e.value
                 else before;
      Told(Step(m, run[0]), run[1..], t, now)
  }

  predicate TruthInv(m: Machine, t: Target, told: Json) {
    Known(m, t) && (!IsMarked(m, t) ==> Same(m.store.values[t.entity][t.attr], told))
  }

  lemma GuessSeenAt(s: Store, u: Target, value: Json, t: Target)
    requires s.Has(u.entity, u.attr) && s.Has(t.entity, t.attr)
    ensures var n := Marked(s, u.entity, u.attr, value, Pow2(u.attr));
            && n.Has(t.entity, t.attr)
            && if t == u then n.Unconfirmed(t.entity, t.attr)
               else n.values[t.entity][t.attr] == s.values[t.entity][t.attr] &&
                    (n.Unconfirmed(t.entity, t.attr) <==> s.Unconfirmed(t.entity, t.attr))
  {
    GuessTouchesOneAttribute(s, u.entity, u.attr, value);
    hide Marked, Bit, Pow2;
  }

  lemma ReportSeenAt(s: Store, u: Target, value: Json, t: Target)
    requires s.Has(u.entity, u.attr) && s.Has(t.entity, t.attr)
    ensures var n := Applied(s, u.entity, u.attr, value, Pow2(u.attr));
            && n.Has(t.entity, t.attr)
            && if t == u then Same(n.values[t.entity][t.attr], value) && !n.Unconfirmed(t.entity, t.attr)
               else n.values[t.entity][t.attr] == s.values[t.entity][t.attr] &&
                    (n.Unconfirmed(t.entity, t.attr) <==> s.Unconfirmed(t.entity, t.attr))
  {
    ReportTouchesOneAttribute(s, u.entity, u.attr, value);
    hide Applied, Bit, Pow2, Same;
  }

  lemma StepKeepsTruth(m: Machine, e: Stamped, t: Target, told: Json)
    requires TruthInv(m, t, told) && Enabled(m, e)
    ensures TruthInv(Step(m, e), t, Told(m, [e], t, told))
  {
    assert [e][1..] == [];
    match e.event {
      case Command(u, value, _) => GuessSeenAt(m.store, u, value, t);
      case Report(u, value) => ReportSeenAt(m.store, u, value, t);
      case ReadDone(id, value) => ReportSeenAt(m.store, Head(m.tasks[id]), value, t);
      case _ =>
    }
    hide Applied, Marked, And, Pow2, Bit, Same, Refuses;
  }

  /** A value without a mark is what the SysAP last said: no guess outlives its mark. */
  lemma {:induction false} UnmarkedMeansTold(m: Machine, run: seq<Stamped>, t: Target, told: Json)
    requires TruthInv(m, t, told) && Legal(m, run)
    ensures TruthInv(After(m, run), t, Told(m, run, t, told))
    decreases |run|
  {
    if run != [] {
      StepKeepsTruth(m, run[0], t, told);
      assert [run[0]][1..] == [];
      hide TruthInv;
      UnmarkedMeansTold(Step(m, run[0]), run[1..], t, Told(m, [run[0]], t, told));
    }
  }

  // ---------------------------------------------------------------- old answers

  /** The coroutine reads `t` now or later in its request. */
  predicate Reads(p: Phase, t: Target) {
    match p
    case Waiting(_, _) => false
    case TimerRead(u) => u == t
    case OtherRead(queue) => t in queue
  }

  predicate ReadUnderWay(m: Machine, t: Target) {
    exists id :: id in m.tasks && Reads(m.tasks[id], t)
  }

  /** This step starts a read of `t`. */
  predicate StartsReadOf(m: Machine, e: Stamped, t: Target) {
    Enabled(m, e) &&
    match e.event
    case Fire(id) => StartsRead(m, e) && m.tasks[id].target == t
    case WriteFailed(u) => u == t && !Refuses(m, u.entity, e.at)
    case Get(entity, targets) => t in targets && !Refuses(m, entity, e.at)
    case _ => false
  }

  predicate ReportsOn(e: Stamped, t: Target) {
    e.event.Report? && e.event.target == t
  }

  predicate AnswersFor(m: Machine, e: Stamped, t: Target) {
    Enabled(m, e) && e.event.ReadDone? && Head(m.tasks[e.event.id]) == t
  }

  /** An answer belongs to a read under way. */
  lemma AnswersComeFromReads(m: Machine, e: Stamped, t: Target)
    requires AnswersFor(m, e, t)
    ensures ReadUnderWay(m, t)
  {
    assert Reads(m.tasks[e.event.id], t);
  }

  lemma TasksAfterStep(m: Machine, e: Stamped, t: Target)
    requires Enabled(m, e) && !StartsReadOf(m, e, t)
    ensures ReadUnderWay(Step(m, e), t) ==> ReadUnderWay(m, t)
  {
    var n := Step(m, e);
    if e.event.Fire? {
      var u := m.tasks[e.event.id].target;
      AndFinds(m.store.unconfirmed[u.entity], u.attr);
    }
    hide And, Bit, Pow2, Applied, Marked, Refuses, Known;
    forall id | id in n.tasks && Reads(n.tasks[id], t) ensures ReadUnderWay(m, t) {
      assert id in m.tasks && Reads(m.tasks[id], t);
    }
  }

  /** The state before event `k` of the run. */
  function StateAt(m: Machine, run: seq<Stamped>, k: nat): Machine
    requires Legal(m, run) && k <= |run|
    decreases |run|
  {
    if k == 0 then m else StateAt(Step(m, run[0]), run[1..], k - 1)
  }

  /** Event `i` starts a read of `t`, and the later event `j` answers one. */
  predicate AnsweredAfterStart(m: Machine, run: seq<Stamped>, t: Target, i: nat, j: nat)
    requires Legal(m, run)
  {
    i < j < |run| && StartsReadOf(StateAt(m, run, i), run[i], t) && AnswersFor(StateAt(m, run, j), run[j], t)
  }

  lemma {:induction false} AnswerHasStart(m: Machine, run: seq<Stamped>, t: Target, j: nat) returns (i: nat)
    requires Legal(m, run) && j < |run| && !ReadUnderWay(m, t) && AnswersFor(StateAt(m, run, j), run[j], t)
    ensures i < j && StartsReadOf(StateAt(m, run, i), run[i], t)
    decreases |run|
  {
    hide StartsReadOf, AnswersFor, ReadUnderWay, Step, Enabled;
    i := 0;
    if j == 0 {
      AnswersComeFromReads(m, run[0], t);
    } else if !StartsReadOf(m, run[0], t) {
      TasksAfterStep(m, run[0], t);
      var k := AnswerHasStart(Step(m, run[0]), run[1..], t, j - 1);
      i := k + 1;
    }
  }

  lemma {:induction false} MarkStaysUntilSettled(m: Machine, run: seq<Stamped>, t: Target) returns (j: nat)
    requires Legal(m, run) && IsMarked(m, t) && !IsMarked(After(m, run), t)
    ensures j < |run| && (ReportsOn(run[j], t) || AnswersFor(StateAt(m, run, j), run[j], t))
    decreases |run|
  {
    hide Step, Enabled, AnswersFor, IsMarked, ReportsOn;
    assert run != [];
    j := 0;
    if !ReportsOn(run[0], t) && !AnswersFor(m, run[0], t) {
      MarkNeedsAnAnswer(m, run[0], t);
      var k := MarkStaysUntilSettled(Step(m, run[0]), run[1..], t);
      j := k + 1;
    }
  }

  lemma MarkNeedsAnAnswer(m: Machine, e: Stamped, t: Target)
    requires Enabled(m, e) && IsMarked(m, t) && !ReportsOn(e, t) && !AnswersFor(m, e, t)
    ensures IsMarked(Step(m, e), t)
  {
    match e.event {
      case Command(u, value, _) => GuessSeenAt(m.store, u, value, t);
      case Report(u, value) => ReportSeenAt(m.store, u, value, t);
      case ReadDone(id, value) => ReportSeenAt(m.store, Head(m.tasks[id]), value, t);
      case _ =>
    }
    hide Applied, Marked, And, Pow2, Bit, Refuses;
  }

  /**
   If no read of the attribute is under way when a command marks it, the mark stays, in any run, until a
   report on it or the answer to a read that was started after the command.
   */
  lemma {:induction false} NewMarkOutlivesOldReads(m: Machine, run: seq<Stamped>, t: Target)
    requires Legal(m, run) && IsMarked(m, t) && !ReadUnderWay(m, t)
    ensures !IsMarked(After(m, run), t) ==>
              (exists j: nat :: j < |run| && ReportsOn(run[j], t)) ||
              (exists i: nat, j: nat :: AnsweredAfterStart(m, run, t, i, j))
  {
    if !IsMarked(After(m, run), t) {
      var j := MarkStaysUntilSettled(m, run, t);
      hide Legal, After, StateAt, StartsReadOf, AnswersFor, IsMarked, ReadUnderWay;
      if !ReportsOn(run[j], t) {
        var i := AnswerHasStart(m, run, t, j);
        assert AnsweredAfterStart(m, run, t, i, j);
      }
    }
  }

  predicate PhaseFits(m: Machine, p: Phase) {
    match p
    case Waiting(_, _) => true
    case TimerRead(t) => Known(m, t)
    case OtherRead(queue) => queue != [] && forall t :: t in queue ==> Known(m, t)
  }

  /** Every read under way is of attributes that exist. */
  predicate ReadsFit(m: Machine) {
    forall id :: id in m.tasks ==> PhaseFits(m, m.tasks[id])
  }

  lemma KnownStays(m: Machine, e: Stamped)
    requires Enabled(m, e)
    ensures forall t :: Known(m, t) ==> Known(Step(m, e), t)
  {
    hide Refuses, And, Or, Clear, Pow2, Same;
  }

  lemma PhaseStaysFit(m: Machine, n: Machine, p: Phase)
    requires PhaseFits(m, p) && forall t :: Known(m, t) ==> Known(n, t)
    ensures PhaseFits(n, p)
  {
    hide Known;
  }

  /** The step's new phases, if any, fit. */
  lemma NewPhasesFit(m: Machine, e: Stamped, id: TaskId)
    requires ReadsFit(m) && Enabled(m, e) && id in Step(m, e).tasks
    ensures PhaseFits(m, Step(m, e).tasks[id])
  {
    hide Applied, Marked, Refuses, And, Pow2;
    if e.event.ReadDone? || e.event.ReadFailed? {
      assert Step(m, e).tasks == Advanced(m.tasks, e.event.id);
      assert PhaseFits(m, m.tasks[e.event.id]);
    }
    hide Known;
  }

  lemma StepKeepsReads(m: Machine, e: Stamped)
    requires ReadsFit(m) && Enabled(m, e)
    ensures ReadsFit(Step(m, e))
  {
    KnownStays(m, e);
    var n := Step(m, e);
    hide Step, Known, Enabled, PhaseFits;
    forall id | id in n.tasks ensures PhaseFits(n, n.tasks[id]) {
      NewPhasesFit(m, e, id);
      PhaseStaysFit(m, n, n.tasks[id]);
    }
  }

  lemma {:induction false} RunKeepsReads(m: Machine, run: seq<Stamped>)
    requires ReadsFit(m) && Legal(m, run)
    ensures ReadsFit(After(m, run))
    decreases |run|
  {
    if run != [] {
      StepKeepsReads(m, run[0]);
      hide ReadsFit, Step;
      RunKeepsReads(Step(m, run[0]), run[1..]);
    }
  }

  /** Nothing in the run reports on `t` or starts a read of it. */
  predicate NoNewsOn(m: Machine, run: seq<Stamped>, t: Target)
    requires Legal(m, run)
    decreases |run|
  {
    run == [] ||
    (!ReportsOn(run[0], t) && !StartsReadOf(m, run[0], t) && NoNewsOn(Step(m, run[0]), run[1..], t))
  }

  lemma {:induction false} NoNewsAt(m: Machine, run: seq<Stamped>, t: Target, k: nat)
    requires Legal(m, run) && NoNewsOn(m, run, t) && k < |run|
    ensures !ReportsOn(run[k], t) && !StartsReadOf(StateAt(m, run, k), run[k], t)
    decreases |run|
  {
    hide StartsReadOf, Step, Enabled;
    if k > 0 {
      NoNewsAt(Step(m, run[0]), run[1..], t, k - 1);
    }
  }

  /** A read under way comes to its attribute, if need be past others it reads first, and its answer settles it. */
  lemma {:induction false} OldReadAnswers(m: Machine, id: TaskId, t: Target, answer: Json) returns (run: seq<Stamped>)
    requires ReadsFit(m) && id in m.tasks && Reads(m.tasks[id], t)
    ensures Legal(m, run) && NoNewsOn(m, run, t)
    ensures var n := After(m, run);
            Known(n, t) && !IsMarked(n, t) && Same(n.store.values[t.entity][t.attr], answer)
    decreases if m.tasks[id].OtherRead? then |m.tasks[id].queue| else 0
  {
    var e := Stamped(m.clock, if Head(m.tasks[id]) == t then ReadDone(id, answer) else ReadFailed(id));
    assert Reading(m, id);
    var n := Step(m, e);
    if Head(m.tasks[id]) == t {
      ReportSeenAt(m.store, t, answer, t);
      hide Applied, Marked, Bit, Pow2, Same;
      run := [e];
      assert [e][1..] == [];
    } else {
      StepKeepsReads(m, e);
      hide Applied, Marked, Bit, Pow2, Same, Known;
      assert n.tasks[id] == OtherRead(m.tasks[id].queue[1..]);
      var rest := OldReadAnswers(n, id, t, answer);
      run := [e] + rest;
      assert run[1..] == rest;
    }
  }

  lemma ReadsAfterCommand(m: Machine, t: Target, guess: Json, confirm: bool)
    requires TimersAreTasks(m) && Known(m, t)
    ensures var n := Step(m, Stamped(m.clock, Command(t, guess, confirm)));
            && (ReadUnderWay(n, t) <==> ReadUnderWay(m, t)) && (ReadsFit(m) ==> ReadsFit(n)) && IsMarked(n, t)
  {
    var e := Stamped(m.clock, Command(t, guess, confirm));
    var n := Step(m, e);
    GuessSeenAt(m.store, t, guess, t);
    TasksAfterStep(m, e, t);
    if ReadsFit(m) {
      StepKeepsReads(m, e);
    }
    hide Marked, Bit, Pow2, ReadsFit;
    forall id | id in m.tasks && Reads(m.tasks[id], t) ensures ReadUnderWay(n, t) {
      assert id in n.tasks && n.tasks[id] == m.tasks[id];
    }
  }

  /**
   A command's mark can be cleared without a report on the attribute and without a read started after the
   command exactly when a read of the attribute is under way when the command is given.
   */
  lemma OldReadCanSettleIff(m: Machine, t: Target, guess: Json, confirm: bool)
    requires TimersAreTasks(m) && ReadsFit(m) && Known(m, t)
    ensures var n := Step(m, Stamped(m.clock, Command(t, guess, confirm)));
            (exists run: seq<Stamped> :: Legal(n, run) && NoNewsOn(n, run, t) && !IsMarked(After(n, run), t)) <==>
            ReadUnderWay(m, t)
  {
    var n := Step(m, Stamped(m.clock, Command(t, guess, confirm)));
    ReadsAfterCommand(m, t, guess, confirm);
    hide Step, ReadsFit, TimersAreTasks, StartsReadOf, IsMarked, Known;
    if ReadUnderWay(m, t) {
      var id :| id in n.tasks && Reads(n.tasks[id], t);
      var run := OldReadAnswers(n, id, t, guess);
    } else {
      forall run: seq<Stamped> | Legal(n, run) && NoNewsOn(n, run, t) ensures IsMarked(After(n, run), t) {
        QuietMarkStays(n, run, t);
      }
    }
  }

  lemma QuietMarkStays(m: Machine, run: seq<Stamped>, t: Target)
    requires Legal(m, run) && IsMarked(m, t) && !ReadUnderWay(m, t) && NoNewsOn(m, run, t)
    ensures IsMarked(After(m, run), t)
  {
    NewMarkOutlivesOldReads(m, run, t);
    hide Legal, After, NoNewsOn, StateAt, StartsReadOf, AnswersFor, IsMarked, ReadUnderWay;
    forall k: nat | k < |run| ensures !ReportsOn(run[k], t) && !StartsReadOf(StateAt(m, run, k), run[k], t) {
      NoNewsAt(m, run, t, k);
    }
  }

  /**
   A read under way when a newer command arrives answers for that command too: the old answer replaces
   the newer guess, its mark is gone, and its own timer then reads nothing.
   */
  lemma OldAnswerSettlesNewerGuess(m: Machine, id: TaskId, guess: Json, answer: Json)
    requires TimersAreTasks(m) && id in m.tasks && m.tasks[id].TimerRead? && Known(m, m.tasks[id].target) &&
             m.delay >= 0.0
    ensures var t := m.tasks[id].target;
            var run := [Stamped(m.clock, Command(t, guess, true)), Stamped(m.clock, ReadDone(id, answer)),
                        Stamped(m.clock + m.delay, Fire(m.nextId))];
            && Legal(m, run)
            && var n := After(m, run);
               && Known(n, t) && !IsMarked(n, t) && Same(n.store.values[t.entity][t.attr], answer)
               && t !in n.timers && n.granted == m.granted
  {
    var t := m.tasks[id].target;
    var e0, e1 := Stamped(m.clock, Command(t, guess, true)), Stamped(m.clock, ReadDone(id, answer));
    var e2 := Stamped(m.clock + m.delay, Fire(m.nextId));
    assert Enabled(m, e0);
    var m1 := Step(m, e0);
    AfterGuess(m, id, guess);
    GuessSeenAt(m.store, t, guess, t);
    assert Enabled(m1, e1);
    var m2 := Step(m1, e1);
    ReportSeenAt(m1.store, t, answer, t);
    assert m2.tasks[m.nextId] == Waiting(t, m.clock);
    AndFinds(m2.store.unconfirmed[t.entity], t.attr);
    hide Applied, Marked, Or, Clear, And, Pow2, Bit, Same;
    assert Enabled(m2, e2);
    assert [e0, e1, e2][1..] == [e1, e2] && [e1, e2][1..] == [e2] && [e2][1..] == [];
    assert Legal(m2, [e2]) && After(m2, [e2]) == Step(m2, e2);
    assert Legal(m1, [e1, e2]) && After(m1, [e1, e2]) == Step(m2, e2);
    hide Step, Enabled;
    assert Legal(m, [e0, e1, e2]) && After(m, [e0, e1, e2]) == After(m1, [e1, e2]);
  }

  lemma AfterGuess(m: Machine, id: TaskId, guess: Json)
    requires TimersAreTasks(m) && id in m.tasks && m.tasks[id].TimerRead? && Known(m, m.tasks[id].target)
    ensures var t, n := m.tasks[id].target, Commanded(m, m.tasks[id].target, guess, true, m.clock);
            id in n.tasks && n.tasks[id] == TimerRead(t) && id != m.nextId && n.tasks[m.nextId] == Waiting(t, m.clock)
  {
    hide Marked;
  }

  // ---------------------------------------------------------------- what the steps do

  predicate Recent(m: Machine, entity: nat, now: real) {
    entity in m.last && now - m.last[entity] < m.minInterval
  }

  /** A command's guess is stored and marked; a confirmable one arms its own timer and ends the one before. */
  lemma CommandMeans(m: Machine, t: Target, value: Json, confirm: bool, at: real)
    requires TimersAreTasks(m) && Known(m, t) && m.clock <= at
    ensures var n := Step(m, Stamped(at, Command(t, value, confirm)));
            && IsMarked(n, t) && n.store.values[t.entity][t.attr] == value && n.granted == m.granted
            && if confirm then
                 && t in n.timers && n.timers[t] in n.tasks && n.tasks[n.timers[t]] == Waiting(t, at)
                 && (t in m.timers ==> m.timers[t] !in n.tasks) && n.timers - {t} == m.timers - {t}
               else n.timers == m.timers && n.tasks == m.tasks
  {
    GuessSeenAt(m.store, t, value, t);
    hide Marked, Pow2, Bit;
  }

  /** After the delay a timer reads exactly if its attribute is still marked and no read of the entity is recent. */
  lemma WakeUpMeans(m: Machine, id: TaskId, at: real)
    requires Enabled(m, Stamped(at, Fire(id)))
    ensures var n, t := Step(m, Stamped(at, Fire(id))), m.tasks[id].target;
            && m.tasks[id].armedAt + m.delay <= at && t !in n.timers && n.store == m.store
            && if m.store.Unconfirmed(t.entity, t.attr) && !Recent(m, t.entity, at) then
                 n.tasks == m.tasks[id := TimerRead(t)] && n.granted == m.granted + [Grant(t.entity, at)]
               else n.tasks == m.tasks - {id} && n.granted == m.granted
  {
    var t := m.tasks[id].target;
    AndFinds(m.store.unconfirmed[t.entity], t.attr);
    hide And, Pow2, Bit;
  }

  /** A request reads its attributes in turn, in one coroutine and for one grant, unless a read is recent. */
  lemma RequestMeans(m: Machine, entity: nat, targets: seq<Target>, at: real)
    requires Enabled(m, Stamped(at, Get(entity, targets)))
    ensures var n := Step(m, Stamped(at, Get(entity, targets)));
            && n.store == m.store && n.timers == m.timers
            && if Recent(m, entity, at) then n.tasks == m.tasks && n.granted == m.granted
               else
                 && n.granted == m.granted + [Grant(entity, at)]
                 && n.tasks == if targets == [] then m.tasks else m.tasks[m.nextId := OtherRead(targets)]
  {
  }

  /** A failed write asks for its own attribute in the same way. */
  lemma FailedWriteIsRequest(m: Machine, t: Target, at: real)
    requires Known(m, t) && m.clock <= at
    ensures Step(m, Stamped(at, WriteFailed(t))) == Step(m, Stamped(at, Get(t.entity, [t])))
  {
  }

  /** A read's answer is a report on the attribute it is at, and the request goes on to the next. */
  lemma AnswerMeans(m: Machine, id: TaskId, value: Json, at: real)
    requires Reading(m, id) && m.clock <= at
    ensures var n := Step(m, Stamped(at, ReadDone(id, value)));
            var t := if m.tasks[id].TimerRead? then m.tasks[id].target else m.tasks[id].queue[0];
            && Known(n, t) && !IsMarked(n, t) && Same(n.store.values[t.entity][t.attr], value)
            && (id in n.tasks <==> m.tasks[id].OtherRead? && |m.tasks[id].queue| > 1)
            && (id in n.tasks ==> n.tasks[id] == OtherRead(m.tasks[id].queue[1..]))
  {
    var t := if m.tasks[id].TimerRead? then m.tasks[id].target else m.tasks[id].queue[0];
    ReportSeenAt(m.store, t, value, t);
    hide Applied, Same, Pow2, Bit;
  }

  // ---------------------------------------------------------------- the reconciler itself

  class RateLimiter {
    const minInterval: real
    var last: map<nat, real>

    constructor (minInterval: real)
      ensures this.minInterval == minInterval && last == map[]
    {
      this.minInterval, last := minInterval, map[];
    }

    /** Whether a read of the entity is allowed now; if so its budget is spent. */
    method Allow(entity: nat, now: real) returns (ok: bool)
      modifies this
      ensures !ok <==> entity in old(last) && now - old(last)[entity] < minInterval
      ensures last == if ok then old(last)[entity := now] else old(last)
    {
      if entity in last && now - last[entity] < minInterval {
        return false;
      }
      last := last[entity := now];
      ok := true;
    }
  }

  /** `Reconciler`, its coroutines split at their `await`s; `tasks` is what the event loop holds. */
  class Reconciler {
    const state: StateStore
    const limiter: RateLimiter
    const delay: real
    var timers: map<Target, TaskId>
    var tasks: map<TaskId, Phase>
    var nextId: TaskId
    ghost var clock: real
    ghost var granted: seq<Grant>
    ghost var abandoned: set<Target>

    ghost function State(): Machine
      reads this, state, limiter
    {
      Machine(delay, limiter.minInterval, state.Model(), limiter.last, timers, tasks, nextId, clock, granted, abandoned)
    }

    constructor (state: StateStore, limiter: RateLimiter, delay: real, ghost clock: real)
      requires limiter.last == map[]
      ensures this.state == state && this.limiter == limiter
      ensures State() == Initial(delay, limiter.minInterval, state.Model(), clock)
    {
      this.state, this.limiter, this.delay := state, limiter, delay;
      timers, tasks, nextId := map[], map[], 0;
      this.clock, granted, abandoned := clock, [], {};
    }

    method Schedule(t: Target, now: real)
      modifies this
      ensures State() == Scheduled(old(State()), t, now)
    {
      if t in timers {
        tasks := tasks - {timers[t]};
      }
      tasks := tasks[nextId := Waiting(t, now)];
      timers := timers[t := nextId];
      nextId := nextId + 1;
      abandoned := abandoned - {t};
    }

    /** The optimistic part of a command. */
    method Guess(t: Target, value: Json, confirm: bool, now: real)
      requires Enabled(State(), Stamped(now, Command(t, value, confirm)))
      modifies this, state
      ensures State() == Step(old(State()), Stamped(now, Command(t, value, confirm)))
    {
      clock := now;
      state.MarkOptimistic(t.entity, t.attr, value, Pow2(t.attr));
      if confirm {
        Schedule(t, now);
      }
    }

    /** The timer's coroutine after its sleep, up to its read. */
    method WakeUp(id: TaskId, now: real)
      requires Enabled(State(), Stamped(now, Fire(id)))
      modifies this, limiter
      ensures State() == Step(old(State()), Stamped(now, Fire(id)))
    {
      clock := now;
      var t := tasks[id].target;
      timers := timers - {t};
      if And(state.unconfirmed[t.entity], Pow2(t.attr)) == 0 {
        tasks := tasks - {id};
        return;
      }
      var ok := limiter.Allow(t.entity, now);
      if !ok {
        tasks := tasks - {id};
        abandoned := abandoned + {t};
        return;
      }
      granted := granted + [Grant(t.entity, now)];
      tasks := tasks[id := TimerRead(t)];
    }

    /** The immediate read after a failed write, and the reads of a `/get`. */
    method StartReads(entity: nat, targets: seq<Target>, now: real)
      requires Enabled(State(), Stamped(now, Get(entity, targets)))
      modifies this, limiter
      ensures State() == Step(old(State()), Stamped(now, Get(entity, targets)))
    {
      clock := now;
      var ok := limiter.Allow(entity, now);
      if !ok {
        return;
      }
      granted := granted + [Grant(entity, now)];
      if targets != [] {
        tasks := tasks[nextId := OtherRead(targets)];
        nextId := nextId + 1;
      }
    }

    /** A read returns: an answer is the truth and clears the mark, a failure changes nothing. */
    method FinishRead(id: TaskId, answer: Option<Json>, now: real)
      requires Enabled(State(), Stamped(now, if answer.Some? then ReadDone(id, answer.value) else ReadFailed(id)))
      modifies this, state
      ensures var e := if answer.Some? then ReadDone(id, answer.value) else ReadFailed(id);
              State() == Step(old(State()), Stamped(now, e))
    {
      clock := now;
      var t := Head(tasks[id]);
      if answer.Some? {
        var changed := state.Apply(t.entity, t.attr, answer.value, Pow2(t.attr));
      } else if tasks[id].TimerRead? {
        abandoned := abandoned + {t};
      }
      tasks := Advanced(tasks, id);
    }
  }
}
