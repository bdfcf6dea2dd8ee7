/**
 The resync debouncer of `supervisor.py`: a request arms one waiter coroutine, which sleeps through
 the debounce delay, sleeps again if the previous resync started too recently, and then resyncs.

 A coroutine runs without interruption from one `await` to the next, so `Machine` records for every
 live coroutine the `await` at which it is suspended, and one `Step` is the code between two of them.
 */
module Reload {
  import opened Wrappers

  type TaskId = nat

  /** The `await` at which a `_wait_then_resync` coroutine is suspended. */
  datatype Phase =
    | Debouncing(armedAt: real)
    | Spacing(armedAt: real, wakeAt: real)
    | Resyncing(again: bool)

  datatype Machine = Machine(
    debounce: real,
    minInterval: real,
    timer: Option<TaskId>,
    reloadAgain: bool,
    lastResyncAt: Option<real>,
    reloadCount: nat,
    tasks: map<TaskId, Phase>,
    nextId: TaskId)

  /** `Request` is an outside caller; `Resume` lets the event loop continue one coroutine. */
  datatype Event = Request | Resume(id: TaskId)

  datatype Stamped = Stamped(at: real, event: Event)

  function Initial(debounce: real, minInterval: real): Machine {
    Machine(debounce, minInterval, None, false, None, 0, map[], 0)
  }

  function AfterRequest(m: Machine, now: real): Machine {
    if m.timer.Some? then
      m.(reloadAgain := true)
    else
      m.(timer := Some(m.nextId), tasks := m.tasks[m.nextId := Debouncing(now)], nextId := m.nextId + 1)
  }

  /** The part of the coroutine that starts the resync: it gives up the timer slot first. */
  function AfterFire(m: Machine, id: TaskId, now: real): Machine {
    m.(timer := None,
    tasks := m.tasks[id := Resyncing(m.reloadAgain)],
    reloadAgain := false,
    lastResyncAt := Some(now),
    reloadCount := m.reloadCount + 1)
  }

  predicate TooSoon(m: Machine, now: real) {
    m.lastResyncAt.Some? && now - m.lastResyncAt.value < m.minInterval
  }

  /** A sleeping coroutine resumes no earlier than its wake-up time; a resync may take any time. */
  predicate Enabled(m: Machine, e: Stamped) {
    match e.event
    case Request => true
    case Resume(id) =>
      id in m.tasks &&
      match m.tasks[id]
      case Debouncing(armedAt) => armedAt + m.debounce <= e.at
      case Spacing(_, wakeAt) => wakeAt <= e.at
      case Resyncing(_) => true
  }

  function Step(m: Machine, e: Stamped): Machine
    requires Enabled(m, e)
  {
    match e.event
    case Request => AfterRequest(m, e.at)
    case Resume(id) =>
      match m.tasks[id]
      case Debouncing(armedAt) =>
        if TooSoon(m, e.at) then
          m.(tasks := m.tasks[id := Spacing(armedAt, e.at + (m.minInterval - (e.at - m.lastResyncAt.value)))])
        else
          AfterFire(m, id, e.at)
      case Spacing(_, _) => AfterFire(m, id, e.at)
      case Resyncing(again) =>
        var rest := m.(tasks := m.tasks - {id});
        if again then AfterRequest(rest, e.at) else rest
  }

  /** This step starts a resync. */
  predicate Fires(m: Machine, e: Stamped) {
    Enabled(m, e) && e.event.Resume? &&
    match m.tasks[e.event.id]
    case Debouncing(_) => !TooSoon(m, e.at)
    case Spacing(_, _) => true
    case Resyncing(_) => false
  }

  // ---------------------------------------------------------------- runs

  /** Every event is enabled where it happens, and the clock never runs backwards. */
  predicate Legal(m: Machine, run: seq<Stamped>)
    decreases |run|
  {
    run == [] ||
    (&& Enabled(m, run[0])
     && (|run| > 1 ==> run[0].at <= run[1].at)
     && Legal(Step(m, run[0]), run[1..]))
  }

  function After(m: Machine, run: seq<Stamped>): Machine
    requires Legal(m, run)
    decreases |run|
  {
    if run == [] then m else After(Step(m, run[0]), run[1..])
  }

  function Starts(m: Machine, run: seq<Stamped>): nat
    requires Legal(m, run)
    decreases |run|
  {
    if run == [] then 0
    else (if Fires(m, run[0]) then 1 else 0) + Starts(Step(m, run[0]), run[1..])
  }

  function Requests(run: seq<Stamped>): nat {
    if run == [] then 0 else (if run[0].event.Request? then 1 else 0) + Requests(run[1..])
  }

  /** Event `i` of the run starts a resync. */
  predicate StartsAt(m: Machine, run: seq<Stamped>, i: nat)
    requires Legal(m, run) && i < |run|
    decreases |run|
  {
    if i == 0 then Fires(m, run[0]) else StartsAt(Step(m, run[0]), run[1..], i - 1)
  }

  // ---------------------------------------------------------------- the invariant

  predicate Waiting(p: Phase) {
    !p.Resyncing?
  }

  /**
   Only the coroutine in the timer slot waits, the flag is only ever set beside it, and a coroutine
   in its second sleep wakes exactly one minimum interval after the last resync start.
   */
  ghost predicate Inv(m: Machine) {
    && (forall id :: id in m.tasks ==> id < m.nextId)
    && (forall id :: id in m.tasks && Waiting(m.tasks[id]) ==> m.timer == Some(id))
    && (m.timer.Some? ==> m.timer.value in m.tasks && Waiting(m.tasks[m.timer.value]))
    && (m.reloadAgain ==> m.timer.Some?)
    && (forall id :: id in m.tasks && m.tasks[id].Spacing? ==>
          && m.lastResyncAt.Some?
          && m.tasks[id].wakeAt == m.lastResyncAt.value + m.minInterval
          && m.tasks[id].armedAt + m.debounce <= m.tasks[id].wakeAt)
  }

  lemma RequestKeepsInv(m: Machine, now: real)
    requires Inv(m)
    ensures Inv(AfterRequest(m, now))
  {
  }

  lemma FireKeepsInv(m: Machine, id: TaskId, now: real)
    requires Inv(m) && id in m.tasks && Waiting(m.tasks[id])
    ensures Inv(AfterFire(m, id, now))
  {
  }

  lemma StepKeepsInv(m: Machine, e: Stamped)
    requires Inv(m) && Enabled(m, e)
    ensures Inv(Step(m, e))
  {
    hide AfterRequest, AfterFire;
    if e.event.Request? {
      RequestKeepsInv(m, e.at);
    } else {
      var id := e.event.id;
      if Waiting(m.tasks[id]) {
        FireKeepsInv(m, id, e.at);
      } else {
        assert Inv(m.(tasks := m.tasks - {id}));
        RequestKeepsInv(m.(tasks := m.tasks - {id}), e.at);
      }
    }
  }

  lemma {:induction false} RunKeepsInv(m: Machine, run: seq<Stamped>)
    requires Inv(m) && Legal(m, run)
    ensures Inv(After(m, run))
    decreases |run|
  {
    if run != [] {
      StepKeepsInv(m, run[0]);
      RunKeepsInv(Step(m, run[0]), run[1..]);
    }
  }

  // ---------------------------------------------------------------- one waiter, spacing

  /** At any point of any run at most one coroutine waits, and it is the one in the timer slot. */
  lemma AtMostOneWaiter(debounce: real, minInterval: real, run: seq<Stamped>, a: TaskId, b: TaskId)
    requires Legal(Initial(debounce, minInterval), run)
    requires var m := After(Initial(debounce, minInterval), run);
             a in m.tasks && b in m.tasks && Waiting(m.tasks[a]) && Waiting(m.tasks[b])
    ensures a == b && After(Initial(debounce, minInterval), run).timer == Some(a)
  {
    RunKeepsInv(Initial(debounce, minInterval), run);
  }

  lemma {:induction false} ClockMoves(m: Machine, run: seq<Stamped>, j: nat)
    requires Legal(m, run) && j < |run|
    ensures run[0].at <= run[j].at
    decreases |run|
  {
    if j > 0 {
      ClockMoves(Step(m, run[0]), run[1..], j - 1);
    }
  }

  lemma {:induction false} StartIsSpaced(m: Machine, run: seq<Stamped>, j: nat)
    requires Inv(m) && Legal(m, run) && j < |run| && StartsAt(m, run, j) && m.lastResyncAt.Some?
    ensures run[j].at - m.lastResyncAt.value >= m.minInterval
    decreases |run|
  {
    if j > 0 {
      StepKeepsInv(m, run[0]);
      if Fires(m, run[0]) {
        ClockMoves(m, run, j);
      } else {
        StartIsSpaced(Step(m, run[0]), run[1..], j - 1);
      }
    }
  }

  /** Two resyncs of one run start at least the minimum interval apart, however long they take. */
  lemma {:induction false} ResyncsAreSpaced(m: Machine, run: seq<Stamped>, i: nat, j: nat)
    requires Inv(m) && Legal(m, run) && i < j < |run|
    requires StartsAt(m, run, i) && StartsAt(m, run, j)
    ensures run[j].at - run[i].at >= m.minInterval
    decreases |run|
  {
    StepKeepsInv(m, run[0]);
    if i == 0 {
      StartIsSpaced(Step(m, run[0]), run[1..], j - 1);
    } else {
      ResyncsAreSpaced(Step(m, run[0]), run[1..], i - 1, j - 1);
    }
  }

  /** Event `i` puts coroutine `id` into the empty timer slot. */
  predicate ArmsAt(m: Machine, run: seq<Stamped>, i: nat, id: TaskId)
    requires Legal(m, run) && i < |run|
    decreases |run|
  {
    if i == 0 then id !in m.tasks && Step(m, run[0]).timer == Some(id)
    else ArmsAt(Step(m, run[0]), run[1..], i - 1, id)
  }

  lemma {:induction false} StartHasOrigin(m: Machine, run: seq<Stamped>, j: nat) returns (i: int)
    requires Inv(m) && Legal(m, run) && j < |run| && StartsAt(m, run, j)
    ensures run[j].event.Resume?
    ensures -1 <= i < j
    ensures i == -1 ==>
              var id := run[j].event.id;
              id in m.tasks && Waiting(m.tasks[id]) && m.tasks[id].armedAt + m.debounce <= run[j].at
    ensures i >= 0 ==> ArmsAt(m, run, i, run[j].event.id) && run[i].at + m.debounce <= run[j].at
    decreases |run|
  {
    i := -1;
    if j > 0 {
      StepKeepsInv(m, run[0]);
      var next := Step(m, run[0]);
      var k := StartHasOrigin(next, run[1..], j - 1);
      if k >= 0 {
        i := k + 1;
      } else if run[j].event.id !in m.tasks {
        i := 0;
      }
    }
  }

  /** Every resync starts at least the debounce delay after the event that armed its waiter. */
  lemma ResyncsAreDebounced(debounce: real, minInterval: real, run: seq<Stamped>, j: nat) returns (i: nat)
    requires Legal(Initial(debounce, minInterval), run) && j < |run|
    requires StartsAt(Initial(debounce, minInterval), run, j)
    ensures run[j].event.Resume? && i < j
    ensures ArmsAt(Initial(debounce, minInterval), run, i, run[j].event.id)
    ensures run[j].at - run[i].at >= debounce
  {
    var k := StartHasOrigin(Initial(debounce, minInterval), run, j);
    i := k;
  }

  // ---------------------------------------------------------------- when resyncs overlap

  function UnderWay(m: Machine): set<TaskId> {
    set id | id in m.tasks && m.tasks[id].Resyncing?
  }

  predicate Armed(m: Machine) {
    m.timer.Some? && m.timer.value in m.tasks && Waiting(m.tasks[m.timer.value])
  }

  /** When the armed waiter's sleeps are over: after its debounce delay and the minimum interval. */
  function WakeUp(m: Machine): real
    requires Armed(m)
  {
    match m.tasks[m.timer.value]
    case Debouncing(armedAt) =>
      if m.lastResyncAt.Some? && m.lastResyncAt.value + m.minInterval > armedAt + m.debounce then
        m.lastResyncAt.value + m.minInterval
      else armedAt + m.debounce
    case Spacing(_, wakeAt) => wakeAt
  }

  lemma WakeUpIsSpaced(m: Machine)
    requires Inv(m) && Armed(m) && m.lastResyncAt.Some?
    ensures WakeUp(m) >= m.lastResyncAt.value + m.minInterval
  {
  }

  lemma UnderWayAfterStep(m: Machine, e: Stamped)
    requires Inv(m) && Enabled(m, e)
    ensures UnderWay(Step(m, e)) ==
            if Fires(m, e) then UnderWay(m) + {e.event.id}
            else if e.event.Resume? then UnderWay(m) - {e.event.id}
            else UnderWay(m)
    ensures Fires(m, e) ==> e.event.id !in UnderWay(m) && Armed(m) && WakeUp(m) <= e.at
  {
  }

  /** A resync can start at `t` exactly when a waiter is armed and its sleeps are over by then. */
  lemma StartIsPossibleIff(m: Machine, t: real)
    requires Inv(m)
    ensures (exists e: Stamped :: e.at == t && Fires(m, e)) <==> Armed(m) && WakeUp(m) <= t
  {
    if Armed(m) && WakeUp(m) <= t {
      assert Fires(m, Stamped(t, Resume(m.timer.value)));
    }
    forall e: Stamped | e.at == t && Fires(m, e) ensures Armed(m) && WakeUp(m) <= t {
      UnderWayAfterStep(m, e);
    }
  }

  lemma AddingMakesTwo(s: set<TaskId>, id: TaskId)
    requires |s| <= 1 && id !in s
    ensures |s + {id}| > 1 <==> s != {}
  {
  }

  /** Something at `t` makes two resyncs overlap exactly when one outlasts the wake-up of an armed waiter. */
  lemma OverlapIsPossibleIff(m: Machine, t: real)
    requires Inv(m) && |UnderWay(m)| <= 1
    ensures (exists e: Stamped :: e.at == t && Enabled(m, e) && |UnderWay(Step(m, e))| > 1) <==>
            UnderWay(m) != {} && Armed(m) && WakeUp(m) <= t
  {
    StartIsPossibleIff(m, t);
    forall e: Stamped | e.at == t && Enabled(m, e)
      ensures |UnderWay(Step(m, e))| > 1 <==> Fires(m, e) && UnderWay(m) != {}
    {
      OnlyStartsAdd(m, e);
    }
    hide Inv, Step, UnderWay, Armed, WakeUp;
  }

  lemma OnlyStartsAdd(m: Machine, e: Stamped)
    requires Inv(m) && Enabled(m, e) && |UnderWay(m)| <= 1
    ensures |UnderWay(Step(m, e))| > 1 <==> Fires(m, e) && UnderWay(m) != {}
  {
    UnderWayAfterStep(m, e);
    hide UnderWay, Step, Fires, Inv;
    if Fires(m, e) {
      AddingMakesTwo(UnderWay(m), e.event.id);
    } else if e.event.Resume? {
      assert e.event.id !in UnderWay(m) ==> UnderWay(m) - {e.event.id} == UnderWay(m);
    }
  }

  /** Nothing happens while a resync is under way and an armed waiter's sleeps are over. */
  predicate ReturnsInTime(m: Machine, run: seq<Stamped>)
    requires Legal(m, run)
    decreases |run|
  {
    run == [] ||
    (&& (UnderWay(m) != {} && Armed(m) ==> run[0].at < WakeUp(m))
     && ReturnsInTime(Step(m, run[0]), run[1..]))
  }

  /** Resyncs do not overlap in a run in which each returns before the next waiter's sleeps are over. */
  lemma {:induction false} ResyncsInTimeNeverOverlap(m: Machine, run: seq<Stamped>)
    requires Inv(m) && |UnderWay(m)| <= 1 && Legal(m, run) && ReturnsInTime(m, run)
    ensures |UnderWay(After(m, run))| <= 1
    decreases |run|
  {
    if run != [] {
      StepKeepsInv(m, run[0]);
      UnderWayAfterStep(m, run[0]);
      OnlyStartsAdd(m, run[0]);
      hide Inv, Step, UnderWay, WakeUp, Fires;
      ResyncsInTimeNeverOverlap(Step(m, run[0]), run[1..]);
    }
  }

  /** Whatever happens while a resync is under way happens within the minimum interval of its start. */
  predicate ShortResyncs(m: Machine, run: seq<Stamped>)
    requires Legal(m, run)
    decreases |run|
  {
    run == [] ||
    (&& (UnderWay(m) != {} ==> m.lastResyncAt.Some? && run[0].at < m.lastResyncAt.value + m.minInterval)
     && ShortResyncs(Step(m, run[0]), run[1..]))
  }

  lemma {:induction false} ShortResyncsReturnInTime(m: Machine, run: seq<Stamped>)
    requires Inv(m) && Legal(m, run) && ShortResyncs(m, run)
    ensures ReturnsInTime(m, run)
    decreases |run|
  {
    if run != [] {
      StepKeepsInv(m, run[0]);
      if Armed(m) && m.lastResyncAt.Some? {
        WakeUpIsSpaced(m);
      }
      hide Inv, Step, UnderWay, WakeUp;
      ShortResyncsReturnInTime(Step(m, run[0]), run[1..]);
    }
  }

  /** Resyncs shorter than the minimum interval never overlap, in any run. */
  lemma ShortResyncsNeverOverlap(debounce: real, minInterval: real, run: seq<Stamped>)
    requires Legal(Initial(debounce, minInterval), run) && ShortResyncs(Initial(debounce, minInterval), run)
    ensures |UnderWay(After(Initial(debounce, minInterval), run))| <= 1
  {
    var m := Initial(debounce, minInterval);
    assert UnderWay(m) == {};
    ShortResyncsReturnInTime(m, run);
    ResyncsInTimeNeverOverlap(m, run);
  }

  /** A request during a resync that outlasts the next waiter's sleeps: two resyncs are under way at once. */
  lemma ResyncsCanOverlap(debounce: real, minInterval: real)
    requires debounce >= 0.0 && minInterval >= 0.0
    ensures var run := [Stamped(0.0, Request), Stamped(debounce, Resume(0)), Stamped(debounce, Request),
                        Stamped(debounce + debounce + minInterval, Resume(1))];
            && Legal(Initial(debounce, minInterval), run)
            && UnderWay(After(Initial(debounce, minInterval), run)) == {0, 1}
  {
    var e0, e1, e2 := Stamped(0.0, Request), Stamped(debounce, Resume(0)), Stamped(debounce, Request);
    var e3 := Stamped(debounce + debounce + minInterval, Resume(1));
    var m1 := Step(Initial(debounce, minInterval), e0);
    var m2 := Step(m1, e1);
    var m3 := Step(m2, e2);
    var m4 := Step(m3, e3);
    assert m3.tasks == map[0 := Resyncing(false), 1 := Debouncing(debounce)];
    assert UnderWay(m4) == {0, 1};
    assert [e3][1..] == [] && [e2, e3][1..] == [e3] && [e1, e2, e3][1..] == [e2, e3];
    assert [e0, e1, e2, e3][1..] == [e1, e2, e3];
    assert Legal(m3, [e3]) && After(m3, [e3]) == m4;
    assert Legal(m2, [e2, e3]) && After(m2, [e2, e3]) == m4;
    assert Legal(m1, [e1, e2, e3]) && After(m1, [e1, e2, e3]) == m4;
  }

  /** The counter counts the resyncs that were started. */
  lemma {:induction false} StartsAreCounted(m: Machine, run: seq<Stamped>)
    requires Legal(m, run)
    ensures After(m, run).reloadCount == m.reloadCount + Starts(m, run)
    decreases |run|
  {
    if run != [] {
      StartsAreCounted(Step(m, run[0]), run[1..]);
    }
  }

  // ---------------------------------------------------------------- no request is lost

  lemma {:induction false} ArmedTimerFires(m: Machine, run: seq<Stamped>) returns (j: nat)
    requires Inv(m) && Legal(m, run) && m.timer.Some? && After(m, run).timer.None?
    ensures j < |run| && StartsAt(m, run, j)
    decreases |run|
  {
    j := 0;
    if !Fires(m, run[0]) {
      StepKeepsInv(m, run[0]);
      var k := ArmedTimerFires(Step(m, run[0]), run[1..]);
      j := k + 1;
    }
  }

  /** Whenever a run comes to rest, each of its requests is followed by a resync that starts after it. */
  lemma {:induction false} NoRequestIsLost(m: Machine, run: seq<Stamped>, i: nat) returns (j: nat)
    requires Inv(m) && Legal(m, run) && After(m, run).timer.None?
    requires i < |run| && run[i].event.Request?
    ensures i < j < |run| && StartsAt(m, run, j)
    decreases |run|
  {
    StepKeepsInv(m, run[0]);
    var k;
    if i == 0 {
      k := ArmedTimerFires(Step(m, run[0]), run[1..]);
    } else {
      k := NoRequestIsLost(Step(m, run[0]), run[1..], i - 1);
    }
    j := k + 1;
  }

  // ---------------------------------------------------------------- no request is amplified

  function Captured(m: Machine): set<TaskId> {
    set id | id in m.tasks && m.tasks[id] == Resyncing(true)
  }

  function Returning(m: Machine): set<TaskId> {
    set id | id in m.tasks && m.tasks[id] == Resyncing(false)
  }

  /** The resyncs the machine still owes: the armed timer, the flag, and the captured flags. */
  function Potential(m: Machine): nat {
    (if m.timer.Some? then 1 else 0) + (if m.reloadAgain then 1 else 0) + |Captured(m)|
  }

  lemma ResyncingTasksAfterStep(m: Machine, e: Stamped)
    requires Inv(m) && Enabled(m, e)
    ensures Captured(Step(m, e)) ==
            if Fires(m, e) && m.reloadAgain then Captured(m) + {e.event.id}
            else if e.event.Resume? then Captured(m) - {e.event.id}
            else Captured(m)
    ensures Returning(Step(m, e)) ==
            if Fires(m, e) && !m.reloadAgain then Returning(m) + {e.event.id}
            else if e.event.Resume? then Returning(m) - {e.event.id}
            else Returning(m)
  {
  }

  /** The step continues coroutine `e.event.id`, which is suspended in its resync. */
  predicate Returns(m: Machine, e: Stamped, again: bool) {
    e.event.Resume? && e.event.id in m.tasks && m.tasks[e.event.id] == Resyncing(again)
  }

  lemma ResyncingMembers(m: Machine, e: Stamped)
    requires Enabled(m, e) && e.event.Resume?
    ensures e.event.id in Captured(m) <==> Returns(m, e, true)
    ensures e.event.id in Returning(m) <==> Returns(m, e, false)
    ensures Fires(m, e) ==> !Returns(m, e, true) && !Returns(m, e, false)
  {
  }

  lemma ResyncingCountsAfterStep(m: Machine, e: Stamped)
    requires Inv(m) && Enabled(m, e)
    ensures |Captured(Step(m, e))| ==
            |Captured(m)| + (if Fires(m, e) && m.reloadAgain then 1 else 0) - (if Returns(m, e, true) then 1 else 0)
    ensures |Returning(Step(m, e))| ==
            |Returning(m)| + (if Fires(m, e) && !m.reloadAgain then 1 else 0) - (if Returns(m, e, false) then 1 else 0)
  {
    ResyncingTasksAfterStep(m, e);
    if e.event.Resume? {
      ResyncingMembers(m, e);
      hide *;
      assert e.event.id !in Captured(m) ==> Captured(m) - {e.event.id} == Captured(m);
      assert e.event.id !in Returning(m) ==> Returning(m) - {e.event.id} == Returning(m);
    }
  }

  lemma StepPaysForStart(m: Machine, e: Stamped)
    requires Inv(m) && Enabled(m, e)
    ensures Potential(Step(m, e)) + (if Fires(m, e) then 1 else 0) <=
            Potential(m) + (if e.event.Request? then 1 else 0)
  {
    ResyncingCountsAfterStep(m, e);
  }

  lemma {:induction false} StartsArePaidFor(m: Machine, run: seq<Stamped>)
    requires Inv(m) && Legal(m, run)
    ensures Starts(m, run) + Potential(After(m, run)) <= Potential(m) + Requests(run)
    decreases |run|
  {
    if run != [] {
      StepKeepsInv(m, run[0]);
      StepPaysForStart(m, run[0]);
      StartsArePaidFor(Step(m, run[0]), run[1..]);
    }
  }

  /** Over any run there are never more resyncs than outside requests. */
  lemma RequestsAreNotAmplified(debounce: real, minInterval: real, run: seq<Stamped>)
    requires Legal(Initial(debounce, minInterval), run)
    ensures Starts(Initial(debounce, minInterval), run) <= Requests(run)
  {
    StartsArePaidFor(Initial(debounce, minInterval), run);
  }

  lemma {:induction false} BeforeFirstStart(m: Machine, run: seq<Stamped>)
    requires Inv(m) && Legal(m, run) && Captured(m) == {} && Starts(m, run) == 0
    ensures Captured(After(m, run)) == {} && Inv(After(m, run))
    decreases |run|
  {
    if run != [] {
      StepKeepsInv(m, run[0]);
      ResyncingTasksAfterStep(m, run[0]);
      BeforeFirstStart(Step(m, run[0]), run[1..]);
    }
  }

  lemma {:induction false} RunSplits(m: Machine, first: seq<Stamped>, rest: seq<Stamped>)
    requires Legal(m, first + rest)
    ensures Legal(m, first) && Legal(After(m, first), rest)
    ensures After(m, first + rest) == After(After(m, first), rest)
    ensures Starts(m, first + rest) == Starts(m, first) + Starts(After(m, first), rest)
    decreases |first|
  {
    if first == [] {
      assert first + rest == rest;
    } else {
      var whole := first + rest;
      assert whole[0] == first[0] && whole[1..] == first[1..] + rest;
      assert |first| > 1 ==> whole[1] == first[1];
      RunSplits(Step(m, first[0]), first[1..], rest);
    }
  }

  /** However many requests arrive before the first resync starts, they cost two resyncs at most. */
  lemma BurstCollapses(debounce: real, minInterval: real, burst: seq<Stamped>, rest: seq<Stamped>)
    requires var m := Initial(debounce, minInterval);
             Legal(m, burst + rest) && Legal(m, burst) && Starts(m, burst) == 0
    requires Requests(rest) == 0
    ensures Starts(Initial(debounce, minInterval), burst + rest) <= 2
  {
    var m := Initial(debounce, minInterval);
    BeforeFirstStart(m, burst);
    RunSplits(m, burst, rest);
    StartsArePaidFor(After(m, burst), rest);
  }

  // ---------------------------------------------------------------- the machine goes idle

  function WaiterRank(m: Machine): nat {
    if m.timer.None? || m.timer.value !in m.tasks then 0
    else if m.tasks[m.timer.value].Debouncing? then 3 else 2
  }

  /** Bounds the number of steps left once the requests stop. */
  function Rank(m: Machine): nat {
    WaiterRank(m) + (if m.reloadAgain then 5 else 0) + 6 * |Captured(m)| + |Returning(m)|
  }

  lemma WaiterRankAfterStep(m: Machine, e: Stamped)
    requires Inv(m) && Enabled(m, e) && e.event.Resume?
    ensures var next := Step(m, e);
            if Fires(m, e) then WaiterRank(m) >= 2 && WaiterRank(next) == 0 && !next.reloadAgain
            else if Returns(m, e, true) then
              if m.timer.None? then WaiterRank(m) == 0 && WaiterRank(next) == 3 && next.reloadAgain == m.reloadAgain
              else WaiterRank(next) == WaiterRank(m) && next.reloadAgain
            else if Returns(m, e, false) then
              WaiterRank(next) == WaiterRank(m) && next.reloadAgain == m.reloadAgain
            else
              WaiterRank(next) < WaiterRank(m) && next.reloadAgain == m.reloadAgain
  {
  }

  lemma ResumingLowersRank(m: Machine, e: Stamped)
    requires Inv(m) && Enabled(m, e) && e.event.Resume?
    ensures Rank(Step(m, e)) < Rank(m)
  {
    ResyncingCountsAfterStep(m, e);
    WaiterRankAfterStep(m, e);
  }

  /** Without new requests a run is bounded, and while it is not at rest some coroutine can go on. */
  lemma {:induction false} GoesIdle(m: Machine, run: seq<Stamped>)
    requires Inv(m) && Legal(m, run) && Requests(run) == 0
    ensures |run| <= Rank(m)
    ensures var end := After(m, run);
            (forall e: Stamped :: e.event.Resume? ==> !Enabled(end, e)) ==>
              end.tasks == map[] && end.timer.None? && !end.reloadAgain
    decreases |run|
  {
    if run != [] {
      StepKeepsInv(m, run[0]);
      ResumingLowersRank(m, run[0]);
      GoesIdle(Step(m, run[0]), run[1..]);
    } else if m.tasks != map[] {
      var id :| id in m.tasks;
      var late := match m.tasks[id]
        case Debouncing(armedAt) => armedAt + m.debounce
        case Spacing(_, wakeAt) => wakeAt
        case Resyncing(_) => 0.0;
      assert Enabled(m, Stamped(late, Resume(id)));
    }
  }

  // ---------------------------------------------------------------- the debouncer itself

  /** `_ReloadDebouncer`, its coroutine split at the `await`s; `tasks` is what the event loop holds. */
  class Debouncer {
    const debounce: real
    const minInterval: real
    var timer: Option<TaskId>
    var reloadAgain: bool
    var lastResyncAt: Option<real>
    var reloadCount: nat
    var tasks: map<TaskId, Phase>
    var nextId: TaskId

    ghost function State(): Machine
      reads this
    {
      Machine(debounce, minInterval, timer, reloadAgain, lastResyncAt, reloadCount, tasks, nextId)
    }

    constructor (debounce: real, minInterval: real)
      ensures State() == Initial(debounce, minInterval)
    {
      this.debounce, this.minInterval := debounce, minInterval;
      timer, reloadAgain, lastResyncAt, reloadCount := None, false, None, 0;
      tasks, nextId := map[], 0;
    }

    method Request(now: real)
      modifies this
      ensures State() == Step(old(State()), Stamped(now, Event.Request))
    {
      if timer.Some? {
        reloadAgain := true;
        return;
      }
      timer := Some(nextId);
      tasks := tasks[nextId := Debouncing(now)];
      nextId := nextId + 1;
    }

    /** From the end of the last sleep to the call of the resync. */
    method StartResync(id: TaskId, now: real)
      modifies this
      ensures State() == AfterFire(old(State()), id, now)
    {
      timer := None;
      var again := reloadAgain;
      reloadAgain := false;
      lastResyncAt := Some(now);
      reloadCount := reloadCount + 1;
      tasks := tasks[id := Resyncing(again)];
    }

    method Resume(id: TaskId, now: real)
      requires Enabled(State(), Stamped(now, Event.Resume(id)))
      modifies this
      ensures State() == Step(old(State()), Stamped(now, Event.Resume(id)))
    {
      match tasks[id]
      case Debouncing(armedAt) =>
        if lastResyncAt.Some? {
          var since := now - lastResyncAt.value;
          if since < minInterval {
            tasks := tasks[id := Spacing(armedAt, now + (minInterval - since))];
            return;
          }
        }
        StartResync(id, now);
      case Spacing(_, _) =>
        StartResync(id, now);
      case Resyncing(again) =>
        tasks := tasks - {id};
        if again {
          Request(now);
        }
    }
  }
}
