/**
 The debounce of `bus/commands.py`: the first value of a burst is sent at once, later ones only replace
 the pending value and restart the window, and the window's end sends what is then pending.

 Everything between two `await`s is one step; `tasks` holds the sleeping `_close_window` coroutines,
 and a cancelled coroutine never wakes up.
 */
module Commands {
  import opened Wrappers

  type TaskId = nat

  /** An egress key: entity index and command name. */
  datatype Key = Key(entity: nat, command: string)

  /** Which commands exist and are continuous, and how long their windows are. */
  datatype Config = Config(continuous: map<Key, bool>, debounce: real, overrides: map<nat, real>)
  {
    function Width(key: Key): real {
      if key.entity in overrides then overrides[key.entity] else debounce
    }
  }

  datatype Window = Window(key: Key, openedAt: real)

  /** What a write was: the first of its burst or a discrete command, the end of a window, or a shutdown flush. */
  datatype Edge = Leading | Trailing | Flushed

  datatype Dispatch = Dispatch(key: Key, value: string, at: real, edge: Edge)

  /** `sent` is the log of the writes handed to the REST client. */
  datatype Machine = Machine(
    config: Config,
    pending: map<Key, string>,
    lastSent: map<Key, string>,
    windows: map<Key, TaskId>,
    tasks: map<TaskId, Window>,
    nextId: TaskId,
    sent: seq<Dispatch>)

  datatype Event = Enqueue(key: Key, value: string) | Close(id: TaskId) | Flush(order: seq<Key>)

  datatype Stamped = Stamped(at: real, event: Event)

  function Initial(config: Config): Machine {
    Machine(config, map[], map[], map[], map[], 0, [])
  }

  function AfterSend(m: Machine, key: Key, value: string, now: real, edge: Edge): Machine {
    m.(lastSent := m.lastSent[key := value], sent := m.sent + [Dispatch(key, value, now, edge)])
  }

  function AfterEnqueue(m: Machine, key: Key, value: string, now: real): Machine
    requires key in m.config.continuous
  {
    if !m.config.continuous[key] then AfterSend(m, key, value, now, Leading)
    else
      var s :=
        if key in m.windows then m.(tasks := m.tasks - {m.windows[key]}) else AfterSend(m, key, value, now, Leading);
      s.(pending := m.pending[key := value],
      windows := m.windows[key := m.nextId],
      tasks := s.tasks[m.nextId := Window(key, now)],
      nextId := m.nextId + 1)
  }

  function AfterClose(m: Machine, id: TaskId, now: real): Machine
    requires id in m.tasks
  {
    var key := m.tasks[id].key;
    var s := m.(tasks := m.tasks - {id}, windows := m.windows - {key}, pending := m.pending - {key});
    if key in m.pending && (key !in m.lastSent || m.pending[key] != m.lastSent[key]) then
      AfterSend(s, key, m.pending[key], now, Trailing)
    else s
  }

  function AfterFlush(m: Machine, order: seq<Key>, now: real): Machine
    decreases |order|
  {
    if order == [] then m else AfterFlush(AfterFlushOne(m, order[0], now), order[1..], now)
  }

  /** Shutdown sends what is pending even if it has been sent before. */
  function AfterFlushOne(m: Machine, key: Key, now: real): Machine {
    var s := m.(tasks := if key in m.windows then m.tasks - {m.windows[key]} else m.tasks,
    windows := m.windows - {key},
    pending := m.pending - {key});
    if key in m.pending && key in m.config.continuous then AfterSend(s, key, m.pending[key], now, Flushed) else s
  }

  /** A window closes no earlier than its width after it was last restarted. */
  predicate Enabled(m: Machine, e: Stamped) {
    match e.event
    case Enqueue(key, _) => key in m.config.continuous
    case Close(id) => id in m.tasks && m.tasks[id].openedAt + m.config.Width(m.tasks[id].key) <= e.at
    case Flush(order) => (forall k :: k in order ==> k in m.windows) && (forall k :: k in m.windows ==> k in order)
  }

  function Step(m: Machine, e: Stamped): Machine
    requires Enabled(m, e)
  {
    match e.event
    case Enqueue(key, value) => AfterEnqueue(m, key, value, e.at)
    case Close(id) => AfterClose(m, id, e.at)
    case Flush(order) => AfterFlush(m, order, e.at)
  }

  /** Every event is enabled where it happens, and the clock never runs backwards. */
  predicate Legal(m: Machine, run: seq<Stamped>)
    decreases |run|
  {
    run == [] ||
    (&& Enabled(m, run[0])
     && (|run| > 1 ==> run[0].at <= run[1].at)
     && Legal(Step(m, run[0]), run[1..]))
  }

  function After(m: Machine, run: seq<Stamped>): Machine
    requires Legal(m, run)
    decreases |run|
  {
    if run == [] then m else After(Step(m, run[0]), run[1..])
  }

  // ---------------------------------------------------------------- what was asked and what was sent

  /** The latest value enqueued on each key. */
  function Latest(known: map<Key, string>, run: seq<Stamped>): map<Key, string>
    decreases |run|
  {
    if run == [] then known
    else
      Latest(if run[0].event.Enqueue? then known[run[0].event.key := run[0].event.value] else known, run[1..])
  }

  /** The values sent on `key`, in order. */
  function On(log: seq<Dispatch>, key: Key): seq<string> {
    if log == [] then []
    else
      var last := |log| - 1;
      On(log[..last], key) + if log[last].key == key then [log[last].value] else []
  }

  lemma OnAppend(log: seq<Dispatch>, d: Dispatch, key: Key)
    ensures On(log + [d], key) == On(log, key) + if d.key == key then [d.value] else []
  {
    assert (log + [d])[..|log|] == log;
  }

  /** `lastSent` is the last value of the log. */
  predicate RemembersLast(m: Machine, key: Key) {
    if key in m.lastSent then On(m.sent, key) != [] && On(m.sent, key)[|On(m.sent, key)| - 1] == m.lastSent[key]
    else On(m.sent, key) == []
  }

  // ---------------------------------------------------------------- the invariant

  /** Every window is one sleeping coroutine and every sleeping coroutine is one window. */
  predicate WindowsAreTasks(m: Machine) {
    && (forall id :: id in m.tasks ==>
          id < m.nextId && m.tasks[id].key in m.windows && m.windows[m.tasks[id].key] == id)
    && (forall k :: k in m.windows ==> m.windows[k] in m.tasks && m.tasks[m.windows[k]].key == k)
  }

  predicate KeySettled(m: Machine, latest: map<Key, string>, k: Key) {
    if k in latest then k in m.lastSent && m.lastSent[k] == latest[k] else k !in m.lastSent
  }

  predicate KeyOpen(m: Machine, latest: map<Key, string>, k: Key) {
    && k in m.pending && k in latest && m.pending[k] == latest[k]
    && k in m.lastSent && k in m.config.continuous && m.config.continuous[k]
  }

  predicate KeyInv(m: Machine, latest: map<Key, string>, k: Key) {
    if k in m.windows then KeyOpen(m, latest, k) else KeySettled(m, latest, k)
  }

  /** A key has a window exactly while it has a pending value, and that is the latest one enqueued. */
  ghost predicate Inv(m: Machine, latest: map<Key, string>) {
    && WindowsAreTasks(m)
    && (forall k :: k in m.pending ==> k in m.windows)
    && (forall k :: if k in m.windows then KeyOpen(m, latest, k) else KeySettled(m, latest, k))
    && (forall k :: RemembersLast(m, k))
  }

  lemma SendRemembers(m: Machine, key: Key, value: string, now: real, edge: Edge)
    requires forall k :: RemembersLast(m, k)
    ensures forall k :: RemembersLast(AfterSend(m, key, value, now, edge), k)
  {
    forall k ensures RemembersLast(AfterSend(m, key, value, now, edge), k) {
      assert RemembersLast(m, k);
      OnAppend(m.sent, Dispatch(key, value, now, edge), k);
    }
  }

  lemma EnqueueKeepsBooks(m: Machine, key: Key, value: string, now: real)
    requires WindowsAreTasks(m) && key in m.config.continuous
    ensures WindowsAreTasks(AfterEnqueue(m, key, value, now))
  {
  }

  lemma EnqueueRemembers(m: Machine, key: Key, value: string, now: real)
    requires (forall k :: RemembersLast(m, k)) && key in m.config.continuous
    ensures forall k :: RemembersLast(AfterEnqueue(m, key, value, now), k)
  {
    SendRemembers(m, key, value, now, Leading);
    hide On;
    forall k ensures RemembersLast(AfterEnqueue(m, key, value, now), k) {
      assert RemembersLast(m, k) && RemembersLast(AfterSend(m, key, value, now, Leading), k);
    }
  }

  lemma EnqueueOpensKey(m: Machine, latest: map<Key, string>, key: Key, value: string, now: real)
    requires KeyInv(m, latest, key) && key in m.config.continuous
    ensures KeyInv(AfterEnqueue(m, key, value, now), latest[key := value], key)
  {
  }

  lemma EnqueueLeavesKey(m: Machine, latest: map<Key, string>, key: Key, value: string, now: real, k: Key)
    requires KeyInv(m, latest, k) && key in m.config.continuous && k != key
    ensures KeyInv(AfterEnqueue(m, key, value, now), latest[key := value], k)
  {
    var next := AfterEnqueue(m, key, value, now);
    assert next.config == m.config && (k in next.windows <==> k in m.windows);
    assert k in m.pending ==> k in next.pending && next.pending[k] == m.pending[k];
    assert k in next.lastSent <==> k in m.lastSent;
    assert k in m.lastSent ==> next.lastSent[k] == m.lastSent[k];
  }

  lemma EnqueueKeepsInv(m: Machine, latest: map<Key, string>, key: Key, value: string, now: real)
    requires Inv(m, latest) && key in m.config.continuous
    ensures Inv(AfterEnqueue(m, key, value, now), latest[key := value])
  {
    EnqueueKeepsBooks(m, key, value, now);
    EnqueueRemembers(m, key, value, now);
    var next := AfterEnqueue(m, key, value, now);
    assert forall k :: k in next.pending ==> k in next.windows;
    hide RemembersLast, WindowsAreTasks, AfterEnqueue, KeyOpen, KeySettled;
    forall k
      ensures if k in next.windows then KeyOpen(next, latest[key := value], k)
              else KeySettled(next, latest[key := value], k)
    {
      if k == key {
        EnqueueOpensKey(m, latest, key, value, now);
      } else {
        EnqueueLeavesKey(m, latest, key, value, now, k);
      }
    }
  }

  lemma CloseKeepsInv(m: Machine, latest: map<Key, string>, id: TaskId, now: real)
    requires Inv(m, latest) && id in m.tasks
    ensures Inv(AfterClose(m, id, now), latest)
  {
    var key := m.tasks[id].key;
    SendRemembers(m, key, m.pending[key], now, Trailing);
    hide On;
    var next := AfterClose(m, id, now);
    forall k ensures RemembersLast(next, k) {
      assert RemembersLast(m, k) && RemembersLast(AfterSend(m, key, m.pending[key], now, Trailing), k);
    }
    hide RemembersLast;
  }

  lemma FlushOneRemembers(m: Machine, key: Key, now: real)
    requires forall k :: RemembersLast(m, k)
    ensures forall k :: RemembersLast(AfterFlushOne(m, key, now), k)
  {
    hide On;
    if key in m.pending {
      SendRemembers(m, key, m.pending[key], now, Flushed);
    }
    forall k ensures RemembersLast(AfterFlushOne(m, key, now), k) {
      assert RemembersLast(m, k);
      assert key in m.pending ==> RemembersLast(AfterSend(m, key, m.pending[key], now, Flushed), k);
    }
  }

  lemma FlushOneKeepsBooks(m: Machine, key: Key, now: real)
    requires WindowsAreTasks(m)
    ensures WindowsAreTasks(AfterFlushOne(m, key, now))
    ensures AfterFlushOne(m, key, now).windows == m.windows - {key}
    ensures AfterFlushOne(m, key, now).pending == m.pending - {key}
  {
  }

  lemma FlushOneKeepsKey(m: Machine, latest: map<Key, string>, key: Key, now: real, k: Key)
    requires KeyInv(m, latest, key) && KeyInv(m, latest, k) && (key in m.pending ==> key in m.windows)
    ensures KeyInv(AfterFlushOne(m, key, now), latest, k)
  {
  }

  lemma FlushOneKeepsInv(m: Machine, latest: map<Key, string>, key: Key, now: real)
    requires Inv(m, latest)
    ensures Inv(AfterFlushOne(m, key, now), latest)
    ensures AfterFlushOne(m, key, now).windows == m.windows - {key}
  {
    FlushOneRemembers(m, key, now);
    FlushOneKeepsBooks(m, key, now);
    var next := AfterFlushOne(m, key, now);
    hide RemembersLast, WindowsAreTasks, AfterFlushOne, KeyOpen, KeySettled;
    forall k ensures if k in next.windows then KeyOpen(next, latest, k) else KeySettled(next, latest, k) {
      FlushOneKeepsKey(m, latest, key, now, k);
    }
  }

  /** A flush closes every window it lists, and then each of those keys has sent its latest value. */
  lemma {:induction false} FlushKeepsInv(m: Machine, latest: map<Key, string>, order: seq<Key>, now: real)
    requires Inv(m, latest)
    ensures Inv(AfterFlush(m, order, now), latest)
    ensures forall k :: k in AfterFlush(m, order, now).windows <==> k in m.windows && k !in order
    decreases |order|
  {
    if order != [] {
      FlushOneKeepsInv(m, latest, order[0], now);
      FlushKeepsInv(AfterFlushOne(m, order[0], now), latest, order[1..], now);
      hide *;
      assert order == [order[0]] + order[1..];
    }
  }

  lemma StepKeepsInv(m: Machine, latest: map<Key, string>, e: Stamped)
    requires Inv(m, latest) && Enabled(m, e)
    ensures Inv(Step(m, e), if e.event.Enqueue? then latest[e.event.key := e.event.value] else latest)
  {
    hide Inv;
    match e.event
    case Enqueue(key, value) => EnqueueKeepsInv(m, latest, key, value, e.at);
    case Close(id) => CloseKeepsInv(m, latest, id, e.at);
    case Flush(order) => FlushKeepsInv(m, latest, order, e.at);
  }

  lemma {:induction false} RunKeepsInv(m: Machine, latest: map<Key, string>, run: seq<Stamped>)
    requires Inv(m, latest) && Legal(m, run)
    ensures Inv(After(m, run), Latest(latest, run))
    decreases |run|
  {
    if run != [] {
      StepKeepsInv(m, latest, run[0]);
      RunKeepsInv(Step(m, run[0]),
        if run[0].event.Enqueue? then latest[run[0].event.key := run[0].event.value] else latest, run[1..]);
    }
  }

  lemma NothingYet(config: Config)
    ensures Inv(Initial(config), map[])
  {
  }

  /**
   In every reachable state: a key has a window exactly while a value is pending; that value is the
   latest one enqueued; and without a window the last value sent is the latest one enqueued.
   */
  lemma LatestValueWins(config: Config, run: seq<Stamped>, key: Key)
    requires Legal(Initial(config), run)
    ensures var m, latest := After(Initial(config), run), Latest(map[], run);
            && (key in m.windows <==> key in m.pending)
            && (key in m.pending ==> key in latest && m.pending[key] == latest[key])
            && (key !in m.windows ==>
                  if key in latest then On(m.sent, key) != [] && On(m.sent, key)[|On(m.sent, key)| - 1] == latest[key]
                  else On(m.sent, key) == [])
  {
    NothingYet(config);
    RunKeepsInv(Initial(config), map[], run);
    hide On;
    assert RemembersLast(After(Initial(config), run), key);
  }

  lemma {:induction false} RunAppend(m: Machine, run: seq<Stamped>, e: Stamped)
    requires Legal(m, run + [e])
    ensures Legal(m, run) && Enabled(After(m, run), e) && After(m, run + [e]) == Step(After(m, run), e)
    decreases |run|
  {
    var whole := run + [e];
    if run == [] {
      assert whole[1..] == [];
    } else {
      assert whole[0] == run[0] && whole[1..] == run[1..] + [e];
      assert |run| > 1 ==> whole[1] == run[1];
      RunAppend(Step(m, run[0]), run[1..], e);
    }
  }

  lemma {:induction false} LatestAppend(known: map<Key, string>, run: seq<Stamped>, e: Stamped)
    ensures Latest(known, run + [e]) ==
            if e.event.Enqueue? then Latest(known, run)[e.event.key := e.event.value] else Latest(known, run)
    decreases |run|
  {
    if run == [] {
      assert (run + [e])[1..] == [];
    } else {
      assert (run + [e])[1..] == run[1..] + [e];
      LatestAppend(if run[0].event.Enqueue? then known[run[0].event.key := run[0].event.value] else known, run[1..], e);
    }
  }

  /** Shutdown drops nothing: after a flush every key's last write is the latest value enqueued on it. */
  lemma FlushDropsNothing(config: Config, run: seq<Stamped>, at: real, order: seq<Key>, key: Key)
    requires Legal(Initial(config), run + [Stamped(at, Flush(order))])
    ensures var m, latest := After(Initial(config), run + [Stamped(at, Flush(order))]), Latest(map[], run);
            && m.windows == map[] && m.tasks == map[] && m.pending == map[]
            && (key in latest ==> On(m.sent, key) != [] && On(m.sent, key)[|On(m.sent, key)| - 1] == latest[key])
  {
    var e := Stamped(at, Flush(order));
    NothingYet(config);
    RunAppend(Initial(config), run, e);
    RunKeepsInv(Initial(config), map[], run);
    LatestAppend(map[], run, e);
    FlushKeepsInv(After(Initial(config), run), Latest(map[], run), order, at);
    LatestValueWins(config, run + [e], key);
  }

  // ---------------------------------------------------------------- how much is sent

  function Enqueues(run: seq<Stamped>, key: Key): nat {
    if run == [] then 0
    else (if run[0].event.Enqueue? && run[0].event.key == key then 1 else 0) + Enqueues(run[1..], key)
  }

  function Flushes(run: seq<Stamped>): nat {
    if run == [] then 0 else (if run[0].event.Flush? then 1 else 0) + Flushes(run[1..])
  }

  /** The window's end still owes a write. */
  predicate Owes(m: Machine, key: Key) {
    key in m.pending && (key !in m.lastSent || m.pending[key] != m.lastSent[key])
  }

  function Spent(m: Machine, key: Key): nat {
    |On(m.sent, key)| + if Owes(m, key) then 1 else 0
  }

  lemma EnqueuePays(m: Machine, latest: map<Key, string>, key: Key, value: string, now: real, k: Key)
    requires Inv(m, latest) && key in m.config.continuous
    ensures Spent(AfterEnqueue(m, key, value, now), k) <= Spent(m, k) + if k == key then 1 else 0
  {
    OnAppend(m.sent, Dispatch(key, value, now, Leading), k);
    hide On, RemembersLast, WindowsAreTasks;
  }

  lemma ClosePays(m: Machine, id: TaskId, now: real, k: Key)
    requires id in m.tasks
    ensures Spent(AfterClose(m, id, now), k) <= Spent(m, k)
  {
    if Owes(m, m.tasks[id].key) {
      OnAppend(m.sent, Dispatch(m.tasks[id].key, m.pending[m.tasks[id].key], now, Trailing), k);
    }
    hide On;
  }

  lemma FlushOnePays(m: Machine, key: Key, now: real, k: Key)
    ensures var next := AfterFlushOne(m, key, now);
            && Spent(next, k) <= Spent(m, k) + (if k == key && k in m.pending then 1 else 0)
            && (k in next.pending ==> k in m.pending && k != key)
  {
    if key in m.pending {
      OnAppend(m.sent, Dispatch(key, m.pending[key], now, Flushed), k);
    }
    hide On;
  }

  lemma {:induction false} FlushPays(m: Machine, order: seq<Key>, now: real, k: Key)
    ensures Spent(AfterFlush(m, order, now), k) <= Spent(m, k) + if k in m.pending then 1 else 0
    decreases |order|
  {
    if order != [] {
      FlushOnePays(m, order[0], now, k);
      FlushPays(AfterFlushOne(m, order[0], now), order[1..], now, k);
      hide Spent, AfterFlushOne;
    }
  }

  lemma {:induction false} RunPays(m: Machine, latest: map<Key, string>, run: seq<Stamped>, key: Key)
    requires Inv(m, latest) && Legal(m, run)
    ensures Spent(After(m, run), key) <= Spent(m, key) + Enqueues(run, key) + Flushes(run)
    decreases |run|
  {
    if run != [] {
      StepKeepsInv(m, latest, run[0]);
      match run[0].event {
        case Enqueue(k, value) => EnqueuePays(m, latest, k, value, run[0].at, key);
        case Close(id) => ClosePays(m, id, run[0].at, key);
        case Flush(order) => FlushPays(m, order, run[0].at, key);
      }
      RunPays(Step(m, run[0]), if run[0].event.Enqueue? then latest[run[0].event.key := run[0].event.value] else latest,
        run[1..], key);
    }
  }

  /** A key is never written more often than it was commanded, except once for each flush. */
  lemma WritesAreNotAmplified(config: Config, run: seq<Stamped>, key: Key)
    requires Legal(Initial(config), run)
    ensures |On(After(Initial(config), run).sent, key)| <= Enqueues(run, key) + Flushes(run)
  {
    NothingYet(config);
    RunPays(Initial(config), map[], run, key);
  }

  /** The exception is real: a flush inside the window repeats the write of a single command. */
  lemma FlushRepeatsAWrite(config: Config, key: Key, value: string, at: real)
    requires key in config.continuous && config.continuous[key]
    ensures var run := [Stamped(at, Enqueue(key, value)), Stamped(at, Flush([key]))];
            && Legal(Initial(config), run)
            && On(After(Initial(config), run).sent, key) == [value, value] && Enqueues(run, key) == 1
  {
    var m, enqueue, flush := Initial(config), Stamped(at, Enqueue(key, value)), Stamped(at, Flush([key]));
    var first, second := Dispatch(key, value, at, Leading), Dispatch(key, value, at, Flushed);
    var n := Step(m, enqueue);
    assert [key][1..] == [];
    assert AfterFlush(n, [key], at) == AfterFlush(AfterFlushOne(n, key, at), [], at);
    assert Step(n, flush).sent == ([] + [first]) + [second];
    OnAppend([], first, key);
    OnAppend([] + [first], second, key);
    assert Legal(n, [flush]) && After(n, [flush]) == Step(n, flush);
    var run := [enqueue, flush];
    assert run[1..] == [flush] && run[1..][1..] == [];
    assert Enqueues([flush], key) == 0;
  }

  lemma FlushOneWrites(m: Machine, latest: map<Key, string>, key: Key, now: real, k: Key)
    requires Inv(m, latest) && k in m.windows
    ensures var next := AfterFlushOne(m, key, now);
            if k == key then k !in next.windows && On(next.sent, k) == On(m.sent, k) + [latest[k]]
            else k in next.windows && On(next.sent, k) == On(m.sent, k)
  {
    if key in m.pending {
      OnAppend(m.sent, Dispatch(key, m.pending[key], now, Flushed), k);
    }
    hide On, RemembersLast, WindowsAreTasks;
  }

  lemma {:induction false} FlushLeavesOthers(m: Machine, latest: map<Key, string>, order: seq<Key>, now: real, k: Key)
    requires Inv(m, latest) && k !in m.windows
    ensures On(AfterFlush(m, order, now).sent, k) == On(m.sent, k)
    decreases |order|
  {
    if order != [] {
      FlushOneKeepsInv(m, latest, order[0], now);
      if order[0] in m.pending {
        OnAppend(m.sent, Dispatch(order[0], m.pending[order[0]], now, Flushed), k);
      }
      hide On, RemembersLast, WindowsAreTasks;
      FlushLeavesOthers(AfterFlushOne(m, order[0], now), latest, order[1..], now, k);
    }
  }

  lemma {:induction false} FlushWritesLatest(m: Machine, latest: map<Key, string>, order: seq<Key>, now: real, k: Key)
    requires Inv(m, latest) && k in m.windows && k in order
    ensures On(AfterFlush(m, order, now).sent, k) == On(m.sent, k) + [latest[k]]
    decreases |order|
  {
    FlushOneKeepsInv(m, latest, order[0], now);
    FlushOneWrites(m, latest, order[0], now, k);
    assert order == [order[0]] + order[1..];
    hide On, RemembersLast, WindowsAreTasks, AfterFlushOne;
    if k == order[0] {
      FlushLeavesOthers(AfterFlushOne(m, order[0], now), latest, order[1..], now, k);
    } else {
      FlushWritesLatest(AfterFlushOne(m, order[0], now), latest, order[1..], now, k);
    }
  }

  /** A flush writes each key with a window once, and repeats its last write exactly when the window owes none. */
  lemma FlushRepeatsIff(m: Machine, latest: map<Key, string>, order: seq<Key>, now: real, key: Key)
    requires Inv(m, latest) && Enabled(m, Stamped(now, Flush(order)))
    ensures var next := Step(m, Stamped(now, Flush(order)));
            if key in m.windows then
              && On(next.sent, key) == On(m.sent, key) + [latest[key]] && On(m.sent, key) != []
              && (On(m.sent, key)[|On(m.sent, key)| - 1] == latest[key] <==> !Owes(m, key))
            else On(next.sent, key) == On(m.sent, key)
  {
    hide On, AfterFlush, WindowsAreTasks;
    assert RemembersLast(m, key);
    if key in m.windows {
      FlushWritesLatest(m, latest, order, now, key);
    } else {
      FlushLeavesOthers(m, latest, order, now, key);
    }
  }

  // ---------------------------------------------------------------- a burst

  /** Each value on `key` arrives before a window opened by the one before could close. */
  predicate Dense(run: seq<Stamped>, key: Key, since: real, width: real)
    decreases |run|
  {
    run == [] ||
    if run[0].event.Enqueue? && run[0].event.key == key then
      run[0].at < since + width && Dense(run[1..], key, run[0].at, width)
    else Dense(run[1..], key, since, width)
  }

  lemma {:induction false} NothingAfterTheWindow(m: Machine, run: seq<Stamped>, key: Key, since: real, width: real)
    requires Legal(m, run) && Dense(run, key, since, width) && (run != [] ==> since + width <= run[0].at)
    ensures Enqueues(run, key) == 0
    decreases |run|
  {
    if run != [] {
      NothingAfterTheWindow(Step(m, run[0]), run[1..], key, since, width);
    }
  }

  /** A step that neither enqueues on the key nor flushes leaves it quiet. */
  lemma QuietStep(m: Machine, latest: map<Key, string>, e: Stamped, key: Key)
    requires Inv(m, latest) && Enabled(m, e) && key !in m.windows
    requires !e.event.Flush? && (e.event.Enqueue? ==> e.event.key != key)
    ensures key !in Step(m, e).windows && On(Step(m, e).sent, key) == On(m.sent, key)
  {
    if e.event.Enqueue? {
      OnAppend(m.sent, Dispatch(e.event.key, e.event.value, e.at, Leading), key);
    } else {
      var k := m.tasks[e.event.id].key;
      assert KeyInv(m, latest, k);
      OnAppend(m.sent, Dispatch(k, m.pending[k], e.at, Trailing), key);
    }
    hide On, RemembersLast, KeyInv;
  }

  lemma {:induction false} QuietKey(m: Machine, latest: map<Key, string>, run: seq<Stamped>, key: Key)
    requires Inv(m, latest) && Legal(m, run) && Flushes(run) == 0
    requires Enqueues(run, key) == 0 && key !in m.windows
    ensures On(After(m, run).sent, key) == On(m.sent, key)
    decreases |run|
  {
    hide Inv, Step, Enabled, On;
    if run != [] {
      var e := run[0];
      StepKeepsInv(m, latest, e);
      QuietStep(m, latest, e, key);
      QuietKey(Step(m, e), if e.event.Enqueue? then latest[e.event.key := e.event.value] else latest, run[1..], key);
    }
  }

  /** What a burst still sends once its window is open: its last value, unless that is what was sent. */
  lemma {:induction false} BurstEnds(m: Machine, latest: map<Key, string>, run: seq<Stamped>, key: Key)
    requires Inv(m, latest) && Legal(m, run) && Flushes(run) == 0 && key in m.windows && key in latest
    requires Dense(run, key, m.tasks[m.windows[key]].openedAt, m.config.Width(key))
    ensures var last := Latest(latest, run);
            && key in last
            && On(After(m, run).sent, key) == On(m.sent, key) +
               if key in After(m, run).windows || last[key] == m.lastSent[key] then [] else [last[key]]
    decreases |run|
  {
    if run != [] {
      StepKeepsInv(m, latest, run[0]);
      BurstStep(m, latest, run[0], key);
      if run[0].event.Close? && m.tasks[run[0].event.id].key == key {
        BurstIsOver(m, latest, run, key);
      } else {
        BurstEnds(Step(m, run[0]),
          if run[0].event.Enqueue? then latest[run[0].event.key := run[0].event.value] else latest, run[1..], key);
      }
    }
  }

  lemma BurstGoesOn(m: Machine, latest: map<Key, string>, k: Key, value: string, now: real, key: Key)
    requires Inv(m, latest) && k in m.config.continuous && key in m.windows
    ensures var next := AfterEnqueue(m, k, value, now);
            && key in next.windows && next.windows[key] in next.tasks
            && next.lastSent[key] == m.lastSent[key] && On(next.sent, key) == On(m.sent, key)
            && next.tasks[next.windows[key]].openedAt == if k == key then now else m.tasks[m.windows[key]].openedAt
  {
    OnAppend(m.sent, Dispatch(k, value, now, Leading), key);
    assert KeyInv(m, latest, key) && KeyInv(m, latest, k);
    assert WindowsAreTasks(m);
    hide On, RemembersLast, Inv;
  }

  lemma OneWindowCloses(m: Machine, latest: map<Key, string>, id: TaskId, now: real, key: Key)
    requires Inv(m, latest) && id in m.tasks && key in m.windows
    ensures var next := AfterClose(m, id, now);
            if m.tasks[id].key == key then
              On(next.sent, key) == On(m.sent, key) + if m.pending[key] == m.lastSent[key] then [] else [m.pending[key]]
            else
              && key in next.windows && next.windows[key] in next.tasks
              && next.lastSent[key] == m.lastSent[key] && On(next.sent, key) == On(m.sent, key)
              && next.tasks[next.windows[key]].openedAt == m.tasks[m.windows[key]].openedAt
  {
    var k := m.tasks[id].key;
    OnAppend(m.sent, Dispatch(k, m.pending[k], now, Trailing), key);
    hide On, RemembersLast;
  }

  /** One step while the window is open: only its end can send, and only a value on `key` restarts it. */
  lemma BurstStep(m: Machine, latest: map<Key, string>, e: Stamped, key: Key)
    requires Inv(m, latest) && Enabled(m, e) && key in m.windows && !e.event.Flush?
    ensures var next := Step(m, e);
            if e.event.Close? && m.tasks[e.event.id].key == key then
              On(next.sent, key) == On(m.sent, key) + if m.pending[key] == m.lastSent[key] then [] else [m.pending[key]]
            else
              && key in next.windows && next.windows[key] in next.tasks && next.config == m.config
              && next.lastSent[key] == m.lastSent[key] && On(next.sent, key) == On(m.sent, key)
              && next.tasks[next.windows[key]].openedAt ==
                 if e.event.Enqueue? && e.event.key == key then e.at else m.tasks[m.windows[key]].openedAt
  {
    match e.event {
      case Enqueue(k, value) => BurstGoesOn(m, latest, k, value, e.at, key);
      case Close(id) => OneWindowCloses(m, latest, id, e.at, key);
      case Flush(_) =>
    }
    hide On, RemembersLast, WindowsAreTasks, KeyOpen, KeySettled;
  }

  lemma BurstIsOver(m: Machine, latest: map<Key, string>, run: seq<Stamped>, key: Key)
    requires Inv(m, latest) && Legal(m, run) && Flushes(run) == 0 && key in m.windows && key in latest
    requires Dense(run, key, m.tasks[m.windows[key]].openedAt, m.config.Width(key))
    requires run != [] && run[0].event.Close? && m.tasks[run[0].event.id].key == key
    ensures key !in After(m, run).windows
    ensures On(After(m, run).sent, key) == On(Step(m, run[0]).sent, key)
    ensures key in Latest(latest, run) && Latest(latest, run)[key] == latest[key]
  {
    var next := Step(m, run[0]);
    StepKeepsInv(m, latest, run[0]);
    NothingAfterTheWindow(next, run[1..], key, m.tasks[m.windows[key]].openedAt, m.config.Width(key));
    QuietKey(next, latest, run[1..], key);
    StaysClosed(next, latest, run[1..], key);
  }

  lemma {:induction false} StaysClosed(m: Machine, latest: map<Key, string>, run: seq<Stamped>, key: Key)
    requires Inv(m, latest) && Legal(m, run) && Flushes(run) == 0
    requires Enqueues(run, key) == 0 && key !in m.windows && key in latest
    ensures key !in After(m, run).windows
    ensures key in Latest(latest, run) && Latest(latest, run)[key] == latest[key]
    decreases |run|
  {
    if run != [] {
      StepKeepsInv(m, latest, run[0]);
      StaysClosed(Step(m, run[0]),
        if run[0].event.Enqueue? then latest[run[0].event.key := run[0].event.value] else latest, run[1..], key);
    }
  }

  /**
   A burst of any length on one continuous command, whatever else happens meanwhile, is written as its
   first value and, if it ends elsewhere, its last one.
   */
  lemma {:induction false} BurstIsTwoWrites(m: Machine, latest: map<Key, string>, run: seq<Stamped>, key: Key,
      first: string)
    requires Inv(m, latest) && Legal(m, run) && Flushes(run) == 0
    requires key !in m.windows && key in m.config.continuous && m.config.continuous[key]
    requires run != [] && run[0].event == Enqueue(key, first)
    requires Dense(run[1..], key, run[0].at, m.config.Width(key))
    requires key !in After(m, run).windows
    ensures key in Latest(latest, run)
    ensures var last := Latest(latest, run)[key];
            On(After(m, run).sent, key) == On(m.sent, key) + if last == first then [first] else [first, last]
  {
    var next := Step(m, run[0]);
    StepKeepsInv(m, latest, run[0]);
    OnAppend(m.sent, Dispatch(key, first, run[0].at, Leading), key);
    BurstEnds(next, latest[key := first], run[1..], key);
    hide On, Inv, Legal, After, Latest;
  }

  // ---------------------------------------------------------------- how far writes are apart

  /** Entries `i` and `j` of the log are two writes on `key` with none between them. */
  predicate Consecutive(log: seq<Dispatch>, key: Key, i: nat, j: nat) {
    i < j < |log| && log[i].key == log[j].key == key && forall k :: i < k < j ==> log[k].key != key
  }

  /** Entry `i` is the last write on `key`. */
  predicate IsLastWrite(log: seq<Dispatch>, key: Key, i: nat) {
    i < |log| && log[i].key == key && forall k :: i < k < |log| ==> log[k].key != key
  }

  /** The first is no end of a window and no flush, and the second no flush. */
  predicate MustBeSpaced(log: seq<Dispatch>, i: nat, j: nat)
    requires i < j < |log|
  {
    log[i].edge.Leading? && !log[j].edge.Flushed?
  }

  ghost predicate LogSpaced(log: seq<Dispatch>, key: Key, width: real) {
    forall i: nat, j: nat :: Consecutive(log, key, i, j) && MustBeSpaced(log, i, j) ==> log[j].at - log[i].at >= width
  }

  /** After a leading write the window is open, and ends a width later at the earliest, or a width has passed. */
  ghost predicate SpacingInv(m: Machine, key: Key, now: real) {
    && LogSpaced(m.sent, key, m.config.Width(key))
    && forall i: nat :: IsLastWrite(m.sent, key, i) && m.sent[i].edge.Leading? ==>
         if key in m.windows && m.windows[key] in m.tasks then m.sent[i].at <= m.tasks[m.windows[key]].openedAt <= now
         else m.sent[i].at + m.config.Width(key) <= now
  }

  lemma LogGrowsSpaced(log: seq<Dispatch>, d: Dispatch, key: Key, width: real)
    requires LogSpaced(log, key, width)
    requires d.key == key && !d.edge.Flushed? ==>
               forall i: nat :: IsLastWrite(log, key, i) && log[i].edge.Leading? ==> d.at - log[i].at >= width
    ensures LogSpaced(log + [d], key, width)
    ensures forall i: nat :: IsLastWrite(log + [d], key, i) <==>
                             if d.key == key then i == |log| else IsLastWrite(log, key, i)
  {
    var more := log + [d];
    forall i: nat, j: nat | Consecutive(more, key, i, j) && MustBeSpaced(more, i, j)
      ensures more[j].at - more[i].at >= width
    {
      if j < |log| {
        assert forall k :: i < k < j ==> more[k] == log[k];
        assert Consecutive(log, key, i, j) && MustBeSpaced(log, i, j);
      } else {
        assert forall k :: i < k < |log| ==> more[k] == log[k];
        assert IsLastWrite(log, key, i);
      }
    }
    forall i: nat ensures IsLastWrite(more, key, i) <==> if d.key == key then i == |log| else IsLastWrite(log, key, i) {
      assert more[|log|] == d;
      assert i < |log| ==> forall k :: i < k < |log| ==> more[k] == log[k];
    }
  }

  lemma EnqueueKeepsSpacing(
    m: Machine, latest: map<Key, string>, k: Key, value: string, now: real, key: Key, before: real)
    requires Inv(m, latest) && k in m.config.continuous && SpacingInv(m, key, before) && before <= now
    requires key in m.config.continuous && m.config.continuous[key]
    ensures SpacingInv(AfterEnqueue(m, k, value, now), key, now)
  {
    if !m.config.continuous[k] || k !in m.windows {
      LogGrowsSpaced(m.sent, Dispatch(k, value, now, Leading), key, m.config.Width(key));
    }
    hide LogSpaced, IsLastWrite, RemembersLast;
  }

  lemma CloseKeepsSpacing(m: Machine, latest: map<Key, string>, id: TaskId, now: real, key: Key, before: real)
    requires Inv(m, latest) && Enabled(m, Stamped(now, Close(id))) && SpacingInv(m, key, before) && before <= now
    ensures SpacingInv(AfterClose(m, id, now), key, now)
  {
    var k := m.tasks[id].key;
    if Owes(m, k) {
      LogGrowsSpaced(m.sent, Dispatch(k, m.pending[k], now, Trailing), key, m.config.Width(key));
    }
    hide LogSpaced, IsLastWrite, RemembersLast;
  }

  lemma FlushOneKeepsSpacing(m: Machine, latest: map<Key, string>, k: Key, now: real, key: Key, before: real)
    requires Inv(m, latest) && SpacingInv(m, key, before) && before <= now
    ensures SpacingInv(AfterFlushOne(m, k, now), key, now)
  {
    if k in m.pending {
      LogGrowsSpaced(m.sent, Dispatch(k, m.pending[k], now, Flushed), key, m.config.Width(key));
    }
    hide LogSpaced, IsLastWrite, RemembersLast;
  }

  lemma {:induction false} FlushKeepsSpacing(
    m: Machine, latest: map<Key, string>, order: seq<Key>, now: real, key: Key, before: real)
    requires Inv(m, latest) && SpacingInv(m, key, before) && before <= now
    ensures SpacingInv(AfterFlush(m, order, now), key, now)
    decreases |order|
  {
    if order == [] {
      hide LogSpaced, IsLastWrite, Inv;
    } else {
      FlushOneKeepsInv(m, latest, order[0], now);
      FlushOneKeepsSpacing(m, latest, order[0], now, key, before);
      hide SpacingInv, Inv, AfterFlushOne;
      FlushKeepsSpacing(AfterFlushOne(m, order[0], now), latest, order[1..], now, key, now);
    }
  }

  lemma {:induction false} FlushKeepsConfig(m: Machine, order: seq<Key>, now: real)
    ensures AfterFlush(m, order, now).config == m.config
    decreases |order|
  {
    if order != [] {
      FlushKeepsConfig(AfterFlushOne(m, order[0], now), order[1..], now);
    }
  }

  lemma ConfigStays(m: Machine, e: Stamped)
    requires Enabled(m, e)
    ensures Step(m, e).config == m.config
  {
    if e.event.Flush? {
      FlushKeepsConfig(m, e.event.order, e.at);
    }
    hide AfterFlush;
  }

  lemma {:induction false} RunKeepsSpacing(
    m: Machine, latest: map<Key, string>, run: seq<Stamped>, key: Key, before: real) returns (now: real)
    requires Inv(m, latest) && Legal(m, run) && SpacingInv(m, key, before) && (run != [] ==> before <= run[0].at)
    requires key in m.config.continuous && m.config.continuous[key]
    ensures SpacingInv(After(m, run), key, now) && After(m, run).config == m.config
    decreases |run|
  {
    now := before;
    if run != [] {
      var e := run[0];
      StepKeepsInv(m, latest, e);
      ConfigStays(m, e);
      match e.event {
        case Enqueue(k, value) => EnqueueKeepsSpacing(m, latest, k, value, e.at, key, before);
        case Close(id) => CloseKeepsSpacing(m, latest, id, e.at, key, before);
        case Flush(order) => FlushKeepsSpacing(m, latest, order, e.at, key, before);
      }
      hide SpacingInv, Inv;
      now := RunKeepsSpacing(Step(m, e), if e.event.Enqueue? then latest[e.event.key := e.event.value] else latest,
        run[1..], key, e.at);
    }
  }

  /**
   In any run, two consecutive writes on a continuous key are at least a window's width apart, unless the
   first ended a window or came from a flush, or the second came from a flush.
   */
  lemma WritesAreSpaced(config: Config, run: seq<Stamped>, key: Key, i: nat, j: nat)
    requires Legal(Initial(config), run) && key in config.continuous && config.continuous[key]
    requires var log := After(Initial(config), run).sent; Consecutive(log, key, i, j) && MustBeSpaced(log, i, j)
    ensures var log := After(Initial(config), run).sent;
            log[j].at - log[i].at >= if key.entity in config.overrides then config.overrides[key.entity]
                                     else config.debounce
  {
    NothingYet(config);
    var m := Initial(config);
    var start := if run == [] then 0.0 else run[0].at;
    assert SpacingInv(m, key, start);
    var now := RunKeepsSpacing(m, map[], run, key, start);
  }

  /**
   The exceptions are real. The end of a window opens no new one: a command that arrives at any moment after
   a trailing write, be it the same, is written at once.
   */
  lemma TrailingWriteOpensNoWindow(
    m: Machine, latest: map<Key, string>, id: TaskId, value: string, at: real, later: real)
    requires Inv(m, latest) && Enabled(m, Stamped(at, Close(id))) && Owes(m, m.tasks[id].key) && at <= later
    ensures var key := m.tasks[id].key;
            var run := [Stamped(at, Close(id)), Stamped(later, Enqueue(key, value))];
            && Legal(m, run)
            && After(m, run).sent ==
               m.sent + [Dispatch(key, latest[key], at, Trailing), Dispatch(key, value, later, Leading)]
  {
    var key := m.tasks[id].key;
    var close, enqueue := Stamped(at, Close(id)), Stamped(later, Enqueue(key, value));
    var m1 := Step(m, close);
    hide On, RemembersLast;
    assert [close, enqueue][1..] == [enqueue] && [enqueue][1..] == [];
    assert Legal(m1, [enqueue]) && After(m1, [enqueue]) == Step(m1, enqueue);
    var first, second := Dispatch(key, latest[key], at, Trailing), Dispatch(key, value, later, Leading);
    assert m.sent + [first] + [second] == m.sent + [first, second];
  }

  // ---------------------------------------------------------------- what the steps do

  /** A discrete command is written at once, be it the same as the last. */
  lemma DiscreteIsWritten(m: Machine, key: Key, value: string, at: real)
    requires key in m.config.continuous && !m.config.continuous[key]
    ensures var n := Step(m, Stamped(at, Enqueue(key, value)));
            && n.sent == m.sent + [Dispatch(key, value, at, Leading)]
            && n.windows == m.windows && n.tasks == m.tasks && n.pending == m.pending
  {
  }

  /** So is a continuous one without a window, and it opens one. */
  lemma FirstOfBurstIsWritten(m: Machine, key: Key, value: string, at: real)
    requires key in m.config.continuous && m.config.continuous[key] && key !in m.windows
    ensures var n := Step(m, Stamped(at, Enqueue(key, value)));
            && n.sent == m.sent + [Dispatch(key, value, at, Leading)]
            && n.windows == m.windows[key := m.nextId] && n.pending == m.pending[key := value]
            && n.tasks == m.tasks[m.nextId := Window(key, at)]
  {
  }

  /** With a window it is only kept as the pending value, and the window starts anew. */
  lemma RestOfBurstIsHeld(m: Machine, key: Key, value: string, at: real)
    requires key in m.config.continuous && m.config.continuous[key] && key in m.windows
    ensures var n := Step(m, Stamped(at, Enqueue(key, value)));
            && n.sent == m.sent
            && n.windows == m.windows[key := m.nextId] && n.pending == m.pending[key := value]
            && n.tasks == (m.tasks - {m.windows[key]})[m.nextId := Window(key, at)]
  {
  }

  /** At its end a window is gone, and its value is written if it is not what was written last. */
  lemma CloseMeans(m: Machine, latest: map<Key, string>, id: TaskId, at: real)
    requires Inv(m, latest) && Enabled(m, Stamped(at, Close(id)))
    ensures var n, key := Step(m, Stamped(at, Close(id))), m.tasks[id].key;
            && n.windows == m.windows - {key} && n.tasks == m.tasks - {id} && n.pending == m.pending - {key}
            && key in latest && On(m.sent, key) != []
            && n.sent == if On(m.sent, key)[|On(m.sent, key)| - 1] == latest[key] then m.sent
                         else m.sent + [Dispatch(key, latest[key], at, Trailing)]
  {
    hide On;
    assert RemembersLast(m, m.tasks[id].key);
  }

  // ---------------------------------------------------------------- the dispatcher itself

  class Dispatcher {
    const config: Config
    var pending: map<Key, string>
    var lastSent: map<Key, string>
    var windows: map<Key, TaskId>
    var tasks: map<TaskId, Window>
    var nextId: TaskId
    var sent: seq<Dispatch>

    ghost function State(): Machine
      reads this
    {
      Machine(config, pending, lastSent, windows, tasks, nextId, sent)
    }

    constructor (config: Config)
      ensures State() == Initial(config)
    {
      this.config := config;
      pending, lastSent, windows, tasks, nextId, sent := map[], map[], map[], map[], 0, [];
    }

    method Send(key: Key, value: string, now: real, edge: Edge)
      modifies this
      ensures State() == AfterSend(old(State()), key, value, now, edge)
    {
      lastSent := lastSent[key := value];
      sent := sent + [Dispatch(key, value, now, edge)];
    }

    method EnqueueWrite(key: Key, value: string, now: real)
      requires key in config.continuous
      modifies this
      ensures State() == Step(old(State()), Stamped(now, Enqueue(key, value)))
    {
      if !config.continuous[key] {
        Send(key, value, now, Leading);
        return;
      }
      if key !in windows {
        Send(key, value, now, Leading);
      } else {
        tasks := tasks - {windows[key]};
      }
      pending := pending[key := value];
      windows := windows[key := nextId];
      tasks := tasks[nextId := Window(key, now)];
      nextId := nextId + 1;
    }

    /** The coroutine after its sleep. */
    method CloseWindow(id: TaskId, now: real)
      requires Enabled(State(), Stamped(now, Close(id)))
      modifies this
      ensures State() == Step(old(State()), Stamped(now, Close(id)))
    {
      var key := tasks[id].key;
      tasks := tasks - {id};
      windows := windows - {key};
      var found := if key in pending then Some(pending[key]) else None;
      pending := pending - {key};
      if found.Some? && (key !in lastSent || found.value != lastSent[key]) {
        Send(key, found.value, now, Trailing);
      }
    }

    /** The synchronous part of the shutdown flush; `order` is the order the windows were listed in. */
    method FlushPending(now: real) returns (order: seq<Key>)
      modifies this
      ensures Enabled(old(State()), Stamped(now, Flush(order)))
      ensures State() == AfterFlush(old(State()), order, now)
    {
      order := KeysOf(windows);
      for i := 0 to |order|
        invariant AfterFlush(State(), order[i..], now) == AfterFlush(old(State()), order, now)
      {
        assert order[i..][0] == order[i] && order[i..][1..] == order[i + 1..];
        FlushOne(order[i], now);
      }
    }

    method FlushOne(key: Key, now: real)
      modifies this
      ensures State() == AfterFlushOne(old(State()), key, now)
    {
      if key in windows {
        tasks := tasks - {windows[key]};
      }
      windows := windows - {key};
      var found := if key in pending then Some(pending[key]) else None;
      pending := pending - {key};
      if found.Some? && key in config.continuous {
        Send(key, found.value, now, Flushed);
      }
    }
  }

  method KeysOf(windows: map<Key, TaskId>) returns (order: seq<Key>)
    ensures forall k :: k in order <==> k in windows
  {
    order := [];
    var rest := windows.Keys;
    while rest != {}
      invariant rest <= windows.Keys
      invariant forall k :: k in order <==> k in windows && k !in rest
    {
      var k :| k in rest;
      order, rest := order + [k], rest - {k};
    }
  }
}
