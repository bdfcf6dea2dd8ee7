/**
 `availability.py`: the bridge's own state, online at once but offline only after a grace period, and the
 change-only publisher of device availability.
 */
module Availability {
  import opened Wrappers
  import opened Values
  import opened Publishing

  type TaskId = nat

  /** One call of the MQTT client for `bridge/state`. */
  datatype Said = Said(at: real, online: bool, forced: bool)

  /** `tasks` holds the grace coroutines asleep and when each was started; `said` is the log. */
  datatype Machine = Machine(
    graceSeconds: real,
    mqttConnected: bool,
    sysapConnected: bool,
    modelLoaded: bool,
    published: Option<bool>,
    graceTask: Option<TaskId>,
    tasks: map<TaskId, real>,
    nextId: TaskId,
    said: seq<Said>)
  {
    predicate Online() {
      mqttConnected && sysapConnected && modelLoaded
    }
  }

  datatype Event =
    | SetMqtt(value: bool)
    | SetSysap(value: bool)
    | SetLoaded(value: bool)
    | PublishNow
    | ForceOffline
    | Fire(id: TaskId)

  datatype Stamped = Stamped(at: real, event: Event)

  function Initial(graceSeconds: real): Machine {
    Machine(graceSeconds, false, false, false, None, None, map[], 0, [])
  }

  function Cancelled(m: Machine): Machine {
    if m.graceTask.None? then m else m.(tasks := m.tasks - {m.graceTask.value}, graceTask := None)
  }

  function Changed(m: Machine, now: real): Machine {
    if m.Online() then Cancelled(m)
    else if m.graceTask.None? then
      m.(graceTask := Some(m.nextId), tasks := m.tasks[m.nextId := now], nextId := m.nextId + 1)
    else m
  }

  function Published(m: Machine, online: bool, now: real): Machine {
    if m.published == Some(online) then m
    else m.(published := Some(online), said := m.said + [Said(now, online, false)])
  }

  function ForcedOffline(m: Machine, now: real): Machine {
    Cancelled(m).(published := Some(false), said := m.said + [Said(now, false, true)])
  }

  predicate Enabled(m: Machine, e: Stamped) {
    e.event.Fire? ==> e.event.id in m.tasks && m.tasks[e.event.id] + m.graceSeconds <= e.at
  }

  function Step(m: Machine, e: Stamped): Machine
    requires Enabled(m, e)
  {
    match e.event
    case SetMqtt(value) => Changed(m.(mqttConnected := value), e.at)
    case SetSysap(value) => Changed(m.(sysapConnected := value), e.at)
    case SetLoaded(value) => Changed(m.(modelLoaded := value), e.at)
    case PublishNow => Published(Cancelled(m), m.Online(), e.at)
    case ForceOffline => ForcedOffline(m, e.at)
    case Fire(id) => Published(m.(tasks := m.tasks - {id}, graceTask := None), false, e.at)
  }

  /** Every event is enabled where it happens, and the clock never runs backwards. */
  predicate Legal(m: Machine, run: seq<Stamped>)
    decreases |run|
  {
    run == [] ||
    (&& Enabled(m, run[0])
     && (|run| > 1 ==> run[0].at <= run[1].at)
     && Legal(Step(m, run[0]), run[1..]))
  }

  function After(m: Machine, run: seq<Stamped>): Machine
    requires Legal(m, run)
    decreases |run|
  {
    if run == [] then m else After(Step(m, run[0]), run[1..])
  }

  // ---------------------------------------------------------------- the invariant

  /** Only the armed timer sleeps, and it is armed only while the bridge is not online. */
  ghost predicate TimerInv(m: Machine) {
    && (forall id :: id in m.tasks <==> m.graceTask == Some(id))
    && (m.graceTask.Some? ==> m.graceTask.value < m.nextId && !m.Online())
    && (!m.Online() && m.graceTask.None? ==> m.published != Some(true))
  }

  /** The memory is the last thing said, and only shutdown says the same thing twice in a row. */
  predicate LogInv(m: Machine) {
    && m.published == (if m.said == [] then None else Some(m.said[|m.said| - 1].online))
    && (forall i :: 0 < i < |m.said| && m.said[i].online == m.said[i - 1].online ==> m.said[i].forced)
    && (forall i :: 0 <= i < |m.said| && m.said[i].forced ==> !m.said[i].online)
  }

  lemma ChangeKeepsTimer(m: Machine, now: real)
    requires (forall id :: id in m.tasks <==> m.graceTask == Some(id)) &&
             (m.graceTask.Some? ==> m.graceTask.value < m.nextId)
    ensures TimerInv(Changed(m, now))
  {
  }

  lemma SaysKeepsTimer(m: Machine, now: real)
    requires forall id :: id in m.tasks <==> m.graceTask == Some(id)
    ensures TimerInv(Published(Cancelled(m), m.Online(), now)) && TimerInv(ForcedOffline(m, now))
  {
    var n := Cancelled(m);
    assert n.graceTask.None? && n.tasks == map[] && n.Online() == m.Online();
    hide Cancelled;
  }

  lemma FireKeepsTimer(m: Machine, id: TaskId, now: real)
    requires TimerInv(m) && id in m.tasks
    ensures TimerInv(Published(m.(tasks := m.tasks - {id}, graceTask := None), false, now))
  {
  }

  lemma StepKeepsTimer(m: Machine, e: Stamped)
    requires TimerInv(m) && Enabled(m, e)
    ensures TimerInv(Step(m, e))
  {
    hide Changed, Published, Cancelled, ForcedOffline;
    match e.event
    case SetMqtt(value) => ChangeKeepsTimer(m.(mqttConnected := value), e.at);
    case SetSysap(value) => ChangeKeepsTimer(m.(sysapConnected := value), e.at);
    case SetLoaded(value) => ChangeKeepsTimer(m.(modelLoaded := value), e.at);
    case Fire(id) => FireKeepsTimer(m, id, e.at);
    case _ => SaysKeepsTimer(m, e.at);
  }

  lemma SayingKeepsLog(m: Machine, s: Said)
    requires LogInv(m) && (m.published == Some(s.online) ==> s.forced) && (s.forced ==> !s.online)
    ensures LogInv(m.(published := Some(s.online), said := m.said + [s]))
  {
  }

  lemma SameLog(m: Machine, n: Machine)
    requires LogInv(m) && n.published == m.published && n.said == m.said
    ensures LogInv(n)
  {
  }

  lemma PublishKeepsLog(m: Machine, n: Machine, online: bool, now: real)
    requires LogInv(m) && n.published == m.published && n.said == m.said
    ensures LogInv(Published(n, online, now))
  {
    SameLog(m, n);
    hide LogInv;
    if n.published != Some(online) {
      SayingKeepsLog(n, Said(now, online, false));
    }
  }

  lemma {:induction false} StepKeepsLog(m: Machine, e: Stamped)
    requires LogInv(m) && Enabled(m, e)
    ensures LogInv(Step(m, e))
  {
    hide LogInv;
    match e.event
    case PublishNow => PublishKeepsLog(m, Cancelled(m), m.Online(), e.at);
    case ForceOffline =>
      SameLog(m, Cancelled(m));
      SayingKeepsLog(Cancelled(m), Said(e.at, false, true));
    case Fire(id) => PublishKeepsLog(m, m.(tasks := m.tasks - {id}, graceTask := None), false, e.at);
    case _ => SameLog(m, Step(m, e));
  }

  lemma {:induction false} StepKeepsInv(m: Machine, e: Stamped)
    requires TimerInv(m) && LogInv(m) && Enabled(m, e)
    ensures TimerInv(Step(m, e)) && LogInv(Step(m, e)) && Step(m, e).graceSeconds == m.graceSeconds
  {
    StepKeepsTimer(m, e);
    StepKeepsLog(m, e);
    GraceStays(m, e);
    hide TimerInv, LogInv, Step, Enabled;
  }

  lemma GraceStays(m: Machine, e: Stamped)
    requires Enabled(m, e)
    ensures Step(m, e).graceSeconds == m.graceSeconds
  {
  }

  lemma {:induction false} RunKeepsInv(m: Machine, run: seq<Stamped>)
    requires TimerInv(m) && LogInv(m) && Legal(m, run)
    ensures TimerInv(After(m, run)) && LogInv(After(m, run))
    decreases |run|
  {
    if run != [] {
      StepKeepsInv(m, run[0]);
      RunKeepsInv(Step(m, run[0]), run[1..]);
    }
  }

  /** In every run: while the bridge is not online, either the timer is armed or nobody was told "online". */
  lemma OutagesAreAnnounced(graceSeconds: real, run: seq<Stamped>)
    requires Legal(Initial(graceSeconds), run)
    ensures var m := After(Initial(graceSeconds), run);
            && (m.graceTask.Some? ==> !m.Online())
            && (!m.Online() && m.graceTask.None? ==> m.said == [] || !m.said[|m.said| - 1].online)
  {
    RunKeepsInv(Initial(graceSeconds), run);
  }

  /** Nothing is said twice in a row, except by shutdown. */
  lemma OnlyChangesAreSaid(graceSeconds: real, run: seq<Stamped>, i: nat)
    requires Legal(Initial(graceSeconds), run) && 0 < i < |After(Initial(graceSeconds), run).said|
    ensures var said := After(Initial(graceSeconds), run).said;
            said[i].online != said[i - 1].online || (said[i].forced && !said[i].online)
  {
    RunKeepsInv(Initial(graceSeconds), run);
  }

  // ---------------------------------------------------------------- the grace period

  /** The state before event `k` of the run. */
  function Before(m: Machine, run: seq<Stamped>, k: nat): Machine
    requires Legal(m, run) && k <= |run|
    decreases |run|
  {
    if k == 0 then m else Before(Step(m, run[0]), run[1..], k - 1)
  }

  lemma TimersKeepTheirStart(m: Machine, e: Stamped, id: TaskId)
    requires TimerInv(m) && Enabled(m, e)
    ensures id in Step(m, e).tasks ==> Step(m, e).tasks[id] == if id in m.tasks then m.tasks[id] else e.at
  {
  }

  /**
   Looks back from a grace timer that ends: since event `i`, which armed it, or since before the run, the
   bridge was never online.
   */
  lemma {:induction false} OfflineSince(m: Machine, run: seq<Stamped>, j: nat) returns (i: int)
    requires TimerInv(m) && LogInv(m) && Legal(m, run) && j < |run| && run[j].event.Fire?
    ensures -1 <= i < j
    ensures forall k :: i < k <= j ==> !Before(m, run, k).Online()
    ensures i == -1 ==> run[j].event.id in m.tasks && m.tasks[run[j].event.id] + m.graceSeconds <= run[j].at
    ensures i >= 0 ==> run[i].at + m.graceSeconds <= run[j].at
    decreases |run|
  {
    i := -1;
    assert run[j].event.id in m.tasks ==> !m.Online();
    if j == 0 {
      assert Before(m, run, 0) == m;
    } else {
      StepKeepsInv(m, run[0]);
      TimersKeepTheirStart(m, run[0], run[j].event.id);
      var next := Step(m, run[0]);
      hide TimerInv, LogInv, Step;
      var k := OfflineSince(next, run[1..], j - 1);
      assert run[1..][j - 1] == run[j];
      if k >= 0 {
        i := k + 1;
      } else if run[j].event.id !in m.tasks {
        i := 0;
      }
      forall l | i < l <= j ensures !Before(m, run, l).Online() {
        if l > 0 {
          assert Before(m, run, l) == Before(next, run[1..], l - 1);
        }
      }
    }
  }

  /** "Offline" by the grace timer means: not online at any moment of the whole preceding grace period. */
  lemma GraceIsHeld(graceSeconds: real, run: seq<Stamped>, j: nat) returns (i: nat)
    requires Legal(Initial(graceSeconds), run) && j < |run| && run[j].event.Fire?
    ensures i < j && run[j].at - run[i].at >= graceSeconds
    ensures forall k :: i < k <= j ==> !Before(Initial(graceSeconds), run, k).Online()
  {
    var k := OfflineSince(Initial(graceSeconds), run, j);
    i := k;
  }

  predicate SignalsOnly(run: seq<Stamped>) {
    forall i :: 0 <= i < |run| ==> !run[i].event.PublishNow? && !run[i].event.ForceOffline?
  }

  /** When the current stretch of not being online began, given that the one before the event began at `since`. */
  function StretchStart(m: Machine, e: Stamped, since: real): real
    requires Enabled(m, e)
  {
    if m.Online() && !Step(m, e).Online() then e.at else since
  }

  function StretchStartAfter(m: Machine, run: seq<Stamped>, since: real): real
    requires Legal(m, run)
    decreases |run|
  {
    if run == [] then since else StretchStartAfter(Step(m, run[0]), run[1..], StretchStart(m, run[0], since))
  }

  /** Whatever happens while the bridge is not online happens less than the grace period after it went offline. */
  predicate ShortOutages(m: Machine, run: seq<Stamped>, since: real)
    requires Legal(m, run)
    decreases |run|
  {
    run == [] ||
    (&& (!m.Online() ==> run[0].at < since + m.graceSeconds)
     && ShortOutages(Step(m, run[0]), run[1..], StretchStart(m, run[0], since)))
  }

  lemma ShortStepIsSilent(m: Machine, e: Stamped, since: real)
    requires TimerInv(m) && Enabled(m, e) && !e.event.PublishNow? && !e.event.ForceOffline?
    requires since <= e.at && (!m.Online() ==> e.at < since + m.graceSeconds)
    requires forall id :: id in m.tasks ==> m.tasks[id] >= since
    ensures Step(m, e).said == m.said && StretchStart(m, e, since) <= e.at
    ensures forall id :: id in Step(m, e).tasks ==> Step(m, e).tasks[id] >= StretchStart(m, e, since)
  {
  }

  /** However often the signals come and go, nothing is said while each outage is shorter than the grace period. */
  lemma {:induction false} ShortOutagesAreSilent(m: Machine, run: seq<Stamped>, since: real)
    requires TimerInv(m) && LogInv(m) && Legal(m, run) && SignalsOnly(run) && ShortOutages(m, run, since)
    requires (forall id :: id in m.tasks ==> m.tasks[id] >= since) && (run != [] ==> since <= run[0].at)
    ensures After(m, run).said == m.said
    decreases |run|
  {
    if run != [] {
      StepKeepsInv(m, run[0]);
      assert forall i :: 0 <= i < |run[1..]| ==> run[1..][i] == run[i + 1];
      ShortStepIsSilent(m, run[0], since);
      hide TimerInv, LogInv, Step, StretchStart;
      ShortOutagesAreSilent(Step(m, run[0]), run[1..], StretchStart(m, run[0], since));
    }
  }

  /** The timer is armed exactly while the bridge is not online, since it went offline. */
  predicate TimerMarksOutage(m: Machine, since: real) {
    if m.Online() then m.graceTask.None?
    else m.graceTask.Some? && m.graceTask.value in m.tasks && m.tasks[m.graceTask.value] == since
  }

  lemma {:induction false} TimerFollowsOutage(m: Machine, run: seq<Stamped>, since: real)
    requires TimerInv(m) && LogInv(m) && Legal(m, run) && SignalsOnly(run) && TimerMarksOutage(m, since)
    requires forall i :: 0 <= i < |run| ==> !run[i].event.Fire?
    ensures TimerMarksOutage(After(m, run), StretchStartAfter(m, run, since))
    ensures TimerInv(After(m, run)) && After(m, run).graceSeconds == m.graceSeconds
    decreases |run|
  {
    if run != [] {
      StepKeepsInv(m, run[0]);
      SignalMovesTimer(m, run[0], since);
      assert forall i :: 0 <= i < |run[1..]| ==> run[1..][i] == run[i + 1];
      hide TimerInv, LogInv, Step, StretchStart, TimerMarksOutage;
      TimerFollowsOutage(Step(m, run[0]), run[1..], StretchStart(m, run[0], since));
    }
  }

  lemma SignalMovesTimer(m: Machine, e: Stamped, since: real)
    requires TimerInv(m) && TimerMarksOutage(m, since)
    requires e.event.SetMqtt? || e.event.SetSysap? || e.event.SetLoaded?
    ensures TimerMarksOutage(Step(m, e), StretchStart(m, e, since))
  {
  }

  /** At `t` a signal or the timer can make the bridge say something exactly if an armed timer's grace is over. */
  lemma CanSpeakIff(m: Machine, t: real)
    requires TimerInv(m)
    ensures (exists e: Stamped :: && e.at == t && Enabled(m, e) && !e.event.PublishNow? && !e.event.ForceOffline?
                                  && Step(m, e).said != m.said) <==>
            && m.graceTask.Some? && m.graceTask.value in m.tasks && m.published != Some(false)
            && m.tasks[m.graceTask.value] + m.graceSeconds <= t
  {
    if m.graceTask.Some? && m.tasks[m.graceTask.value] + m.graceSeconds <= t && m.published != Some(false) {
      var e := Stamped(t, Fire(m.graceTask.value));
      assert Enabled(m, e) && |Step(m, e).said| == |m.said| + 1;
    }
  }

  /**
   The other half: after any signals, an outage that has lasted the grace period can be announced, and the
   announcement leaves "offline" as the last thing said.
   */
  lemma LongOutageIsAnnounced(m: Machine, run: seq<Stamped>, since: real, t: real)
    requires TimerInv(m) && LogInv(m) && Legal(m, run) && SignalsOnly(run) && TimerMarksOutage(m, since)
    requires forall i :: 0 <= i < |run| ==> !run[i].event.Fire?
    requires !After(m, run).Online() && StretchStartAfter(m, run, since) + m.graceSeconds <= t
    ensures var n := After(m, run);
            && n.graceTask.Some? && Enabled(n, Stamped(t, Fire(n.graceTask.value)))
            && Step(n, Stamped(t, Fire(n.graceTask.value))).published == Some(false)
            && (n.published != Some(false) ==>
                  Step(n, Stamped(t, Fire(n.graceTask.value))).said == n.said + [Said(t, false, false)])
  {
    TimerFollowsOutage(m, run, since);
    hide After, StretchStartAfter, Legal, LogInv;
  }

  /** Whatever the bridge says, it says the truth of that moment. */
  lemma OnlyTruthIsSaid(m: Machine, e: Stamped)
    requires TimerInv(m) && LogInv(m) && Enabled(m, e)
    ensures var n := Step(m, e);
            n.said != m.said ==>
              |n.said| == |m.said| + 1 && n.said[..|m.said|] == m.said &&
              (n.said[|m.said|].online == n.Online() || n.said[|m.said|].forced)
  {
    assert e.event.Fire? ==> !m.Online();
    hide LogInv, TimerInv;
  }

  lemma SignalsStay(m: Machine, online: bool, now: real)
    ensures SameSignals(m, Cancelled(m)) && SameSignals(m, Changed(m, now))
    ensures SameSignals(m, Published(m, online, now)) && SameSignals(m, ForcedOffline(m, now))
  {
  }

  predicate SameSignals(m: Machine, n: Machine) {
    && n.mqttConnected == m.mqttConnected && n.sysapConnected == m.sysapConnected && n.modelLoaded == m.modelLoaded
  }

  /** Each signal is what it was last set to, and nothing else changes it. */
  lemma SignalsAreLatest(m: Machine, e: Stamped)
    requires Enabled(m, e)
    ensures Step(m, e).mqttConnected == if e.event.SetMqtt? then e.event.value else m.mqttConnected
    ensures Step(m, e).sysapConnected == if e.event.SetSysap? then e.event.value else m.sysapConnected
    ensures Step(m, e).modelLoaded == if e.event.SetLoaded? then e.event.value else m.modelLoaded
  {
    hide Changed, Published, Cancelled, ForcedOffline;
    match e.event
    case SetMqtt(value) => SignalsStay(m.(mqttConnected := value), false, e.at);
    case SetSysap(value) => SignalsStay(m.(sysapConnected := value), false, e.at);
    case SetLoaded(value) => SignalsStay(m.(modelLoaded := value), false, e.at);
    case PublishNow =>
      SignalsStay(m, false, e.at);
      SignalsStay(Cancelled(m), m.Online(), e.at);
    case ForceOffline => SignalsStay(m, false, e.at);
    case Fire(id) => SignalsStay(m.(tasks := m.tasks - {id}, graceTask := None), false, e.at);
  }

  /** Saying the current state, or "offline" at shutdown, ends a running grace period. */
  lemma SayingCancelsTimer(m: Machine, at: real)
    requires TimerInv(m)
    ensures Step(m, Stamped(at, PublishNow)).graceTask.None? && Step(m, Stamped(at, PublishNow)).tasks == map[]
    ensures Step(m, Stamped(at, ForceOffline)).graceTask.None? && Step(m, Stamped(at, ForceOffline)).tasks == map[]
    ensures Step(m, Stamped(at, ForceOffline)).said == m.said + [Said(at, false, true)]
  {
    assert Cancelled(m).tasks == map[];
  }

  /** "online" is said only while all three signals are on, and "offline", except by shutdown, only while one is off. */
  lemma SaidFromSignals(m: Machine, e: Stamped)
    requires TimerInv(m) && LogInv(m) && Enabled(m, e) && Step(m, e).said != m.said
    ensures |Step(m, e).said| > |m.said|
    ensures var n, word := Step(m, e), Step(m, e).said[|m.said|];
            && (word.online ==> n.mqttConnected && n.sysapConnected && n.modelLoaded)
            && (!word.online && !word.forced ==> !n.mqttConnected || !n.sysapConnected || !n.modelLoaded)
  {
    OnlyTruthIsSaid(m, e);
    StepKeepsLog(m, e);
    hide Step, TimerInv;
  }

  // ---------------------------------------------------------------- the class itself

  class BridgeAvailability {
    const graceSeconds: real
    var mqttConnected: bool
    var sysapConnected: bool
    var modelLoaded: bool
    var published: Option<bool>
    var graceTask: Option<TaskId>
    var tasks: map<TaskId, real>
    var nextId: TaskId
    var said: seq<Said>

    ghost function State(): Machine
      reads this
    {
      Machine(graceSeconds, mqttConnected, sysapConnected, modelLoaded, published, graceTask, tasks, nextId, said)
    }

    constructor (graceSeconds: real)
      ensures State() == Initial(graceSeconds)
    {
      this.graceSeconds := graceSeconds;
      mqttConnected, sysapConnected, modelLoaded := false, false, false;
      published, graceTask, tasks, nextId, said := None, None, map[], 0, [];
    }

    method SetMqttConnected(value: bool, now: real)
      modifies this
      ensures State() == Step(old(State()), Stamped(now, SetMqtt(value)))
    {
      mqttConnected := value;
      OnChange(now);
    }

    method SetSysapConnected(value: bool, now: real)
      modifies this
      ensures State() == Step(old(State()), Stamped(now, SetSysap(value)))
    {
      sysapConnected := value;
      OnChange(now);
    }

    method SetModelLoaded(value: bool, now: real)
      modifies this
      ensures State() == Step(old(State()), Stamped(now, SetLoaded(value)))
    {
      modelLoaded := value;
      OnChange(now);
    }

    method OnChange(now: real)
      modifies this
      ensures State() == Changed(old(State()), now)
    {
      if mqttConnected && sysapConnected && modelLoaded {
        CancelGraceTimer();
      } else if graceTask.None? {
        graceTask := Some(nextId);
        tasks := tasks[nextId := now];
        nextId := nextId + 1;
      }
    }

    method CancelGraceTimer()
      modifies this
      ensures State() == Cancelled(old(State()))
    {
      if graceTask.Some? {
        tasks := tasks - {graceTask.value};
        graceTask := None;
      }
    }

    method Publish(online: bool, now: real)
      modifies this
      ensures State() == Published(old(State()), online, now)
    {
      if published == Some(online) {
        return;
      }
      published := Some(online);
      said := said + [Said(now, online, false)];
    }

    method PublishCurrent(now: real)
      modifies this
      ensures State() == Step(old(State()), Stamped(now, PublishNow))
    {
      CancelGraceTimer();
      Publish(mqttConnected && sysapConnected && modelLoaded, now);
    }

    method PublishForcedOffline(now: real)
      modifies this
      ensures State() == Step(old(State()), Stamped(now, ForceOffline))
    {
      CancelGraceTimer();
      published := Some(false);
      said := said + [Said(now, false, true)];
    }

    /** The grace coroutine after its sleep. */
    method GraceEnds(id: TaskId, now: real)
      requires Enabled(State(), Stamped(now, Fire(id)))
      modifies this
      ensures State() == Step(old(State()), Stamped(now, Fire(id)))
    {
      tasks := tasks - {id};
      graceTask := None;
      Publish(false, now);
    }
  }

  // ---------------------------------------------------------------- device availability

  datatype Device = Device(defect: bool, unresponsive: bool, counter: Json)

  /** What the publisher uses of an entity. */
  datatype Subject = Subject(topic: Option<string>, serial: string)

  const UNKNOWN_DEVICE := Device(false, false, Null)

  function DeviceOf(devices: map<string, Device>, serial: string): Device {
    if serial in devices then devices[serial] else UNKNOWN_DEVICE
  }

  function Report(d: Device): Payload {
    map[
      "state" := Str(if d.defect || d.unresponsive then "offline" else "online"),
      "reason" := if d.defect then Str("defect") else if d.unresponsive then Str("unresponsive") else Null,
      "unresponsive_counter" := d.counter]
  }

  /** A device is offline exactly if it is defect or unresponsive, and its defect is the reason given first. */
  lemma ReportMeans(devices: map<string, Device>, serial: string)
    ensures var r := Report(DeviceOf(devices, serial));
            && r.Keys == {"state", "reason", "unresponsive_counter"}
            && (serial !in devices ==>
                  r["state"] == Str("online") && r["reason"] == Null && r["unresponsive_counter"] == Null)
            && (serial in devices ==>
                  var d := devices[serial];
                  && (r["state"] == Str("offline") <==> d.defect || d.unresponsive)
                  && (r["state"] == Str("online") <==> !d.defect && !d.unresponsive)
                  && (r["reason"] == Str("defect") <==> d.defect)
                  && (r["reason"] == Str("unresponsive") <==> d.unresponsive && !d.defect)
                  && (r["reason"] == Null <==> !d.defect && !d.unresponsive)
                  && r["unresponsive_counter"] == d.counter)
  {
  }

  datatype Progress = Progress(last: Retained, retained: Retained, credit: nat, raised: bool)

  function PublishedAll(subjects: seq<Subject>, devices: map<string, Device>, p: Progress): Progress
    decreases |subjects|
  {
    if subjects == [] then p
    else if subjects[0].topic.None? then PublishedAll(subjects[1..], devices, p)
    else
      var topic, report := subjects[0].topic.value, Report(DeviceOf(devices, subjects[0].serial));
      if topic in p.last && p.last[topic] == report then PublishedAll(subjects[1..], devices, p)
      else if p.credit == 0 then p.(last := p.last[topic := report], raised := true)
      else
        PublishedAll(subjects[1..], devices,
          Progress(p.last[topic := report], p.retained[topic := report], p.credit - 1, false))
  }

  predicate OwnTopics(subjects: seq<Subject>) {
    forall i, j :: 0 <= i < j < |subjects| && subjects[i].topic.Some? ==> subjects[j].topic != subjects[i].topic
  }

  predicate Holds(retained: Retained, topic: string, report: Payload) {
    topic in retained && retained[topic] == report
  }

  lemma {:induction false} TopicsOfOthersStay(subjects: seq<Subject>, devices: map<string, Device>, p: Progress,
      topic: string)
    requires forall i :: 0 <= i < |subjects| ==> subjects[i].topic != Some(topic)
    ensures var q := PublishedAll(subjects, devices, p);
            (topic in q.retained <==> topic in p.retained) &&
              (topic in p.retained ==> q.retained[topic] == p.retained[topic])
    decreases |subjects|
  {
    if subjects != [] {
      var t, report := subjects[0].topic, Report(DeviceOf(devices, subjects[0].serial));
      hide Report;
      if t.None? || (t.value in p.last && p.last[t.value] == report) {
        TopicsOfOthersStay(subjects[1..], devices, p, topic);
      } else if p.credit > 0 {
        TopicsOfOthersStay(subjects[1..], devices,
          Progress(p.last[t.value := report], p.retained[t.value := report], p.credit - 1, false), topic);
      }
    }
  }

  /**
   After a publish that did not raise, the broker holds an entity's report exactly when the report was not
   the remembered one or the broker still held it.
   */
  lemma {:induction false} ReportIsHeldIff(subjects: seq<Subject>, devices: map<string, Device>, p: Progress, i: nat)
    requires OwnTopics(subjects) && i < |subjects| && subjects[i].topic.Some?
    requires !p.raised && !PublishedAll(subjects, devices, p).raised
    ensures var topic, report := subjects[i].topic.value, Report(DeviceOf(devices, subjects[i].serial));
            Holds(PublishedAll(subjects, devices, p).retained, topic, report) <==>
            !Holds(p.last, topic, report) || Holds(p.retained, topic, report)
    decreases |subjects|
  {
    hide Report;
    var t, report := subjects[0].topic, Report(DeviceOf(devices, subjects[0].serial));
    var next := if t.None? || Holds(p.last, t.value, report) then p
                else if p.credit == 0 then p
                else Progress(p.last[t.value := report], p.retained[t.value := report], p.credit - 1, false);
    if i == 0 {
      TopicsOfOthersStay(subjects[1..], devices, next, t.value);
    } else {
      ReportIsHeldIff(subjects[1..], devices, next, i - 1);
    }
  }

  /** The memory is updated before the publish, so a report whose publish fails is not tried again. */
  lemma MemoryIsFirst(subject: Subject, devices: map<string, Device>, p: Progress)
    requires subject.topic.Some? && !p.raised
    ensures var q, report := PublishedAll([subject], devices, p), Report(DeviceOf(devices, subject.serial));
            && Holds(q.last, subject.topic.value, report)
            && (q.raised <==> p.credit == 0 && !Holds(p.last, subject.topic.value, report))
            && (q.raised ==> q.retained == p.retained && !PublishedAll([subject], devices, q.(raised := false)).raised)
  {
    hide Report;
    assert [subject][1..] == [];
  }

  /** A retracted device that comes back in the same condition stays without its availability topic. */
  lemma ReturningDeviceIsSilent(subjects: seq<Subject>, devices: map<string, Device>, p: Progress, i: nat)
    requires OwnTopics(subjects) && i < |subjects| && subjects[i].topic.Some?
    requires Holds(p.last, subjects[i].topic.value, Report(DeviceOf(devices, subjects[i].serial)))
    requires !p.raised &&
             !PublishedAll(subjects, devices, p.(retained := p.retained - {subjects[i].topic.value})).raised
    ensures !Holds(PublishedAll(subjects, devices, p.(retained := p.retained - {subjects[i].topic.value})).retained,
              subjects[i].topic.value, Report(DeviceOf(devices, subjects[i].serial)))
  {
    ReportIsHeldIff(subjects, devices, p.(retained := p.retained - {subjects[i].topic.value}), i);
  }

  class DeviceAvailabilityPublisher {
    const mqtt: Broker
    const enabled: bool
    var lastPublished: Retained

    constructor (mqtt: Broker, enabled: bool)
      ensures this.mqtt == mqtt && this.enabled == enabled && lastPublished == map[]
    {
      this.mqtt, this.enabled, lastPublished := mqtt, enabled, map[];
    }

    ghost function State(raised: bool): Progress
      reads this, mqtt
    {
      Progress(lastPublished, mqtt.retained, mqtt.credit, raised)
    }

    method PublishReports(subjects: seq<Subject>, devices: map<string, Device>) returns (ok: bool)
      modifies this, mqtt
      ensures State(!ok) == if enabled then PublishedAll(subjects, devices, old(State(false))) else old(State(false))
    {
      hide Report;
      if !enabled {
        return true;
      }
      ghost var start := State(false);
      for i := 0 to |subjects|
        invariant PublishedAll(subjects, devices, start) == PublishedAll(subjects[i..], devices, State(false))
      {
        assert subjects[i..][0] == subjects[i] && subjects[i..][1..] == subjects[i + 1..];
        if subjects[i].topic.None? {
          continue;
        }
        var topic, report := subjects[i].topic.value, Report(DeviceOf(devices, subjects[i].serial));
        if topic in lastPublished && lastPublished[topic] == report {
          continue;
        }
        lastPublished := lastPublished[topic := report];
        var sent := mqtt.Publish(topic, report);
        if !sent {
          return false;
        }
      }
      ok := true;
    }
  }
}
