/**
 The REST client's concurrency limiter and retry loop, `sysap/rest.py`. The limiter's ceiling halves on
 every overload and recovers by one per success; its sections under the condition's lock are the steps.
 */
module Rest {
  import opened Lists
  import opened Wrappers
  import opened Bits

  type TaskId = nat

  /** A task that is about to look at the limit, waits to be notified, or is admitted. */
  datatype Phase = Entering | Sleeping | Holding

  datatype Limiter = Limiter(max: nat, limit: nat, inFlight: nat, tasks: map<TaskId, Phase>)

  datatype Event = Arrive(id: TaskId) | Look(id: TaskId) | Leave(id: TaskId) | Overload | Success

  function Initial(max: nat): Limiter {
    Limiter(max, max, 0, map[])
  }

  /** `notify_all`: every sleeper gets to look at the limit again. */
  function Notified(tasks: map<TaskId, Phase>): map<TaskId, Phase> {
    map id | id in tasks :: if tasks[id].Sleeping? then Entering else tasks[id]
  }

  function Halved(limit: nat): nat {
    if limit / 2 > 1 then limit / 2 else 1
  }

  predicate Enabled(m: Limiter, e: Event) {
    match e
    case Arrive(id) => id !in m.tasks
    case Look(id) => id in m.tasks && m.tasks[id].Entering?
    case Leave(id) => id in m.tasks && m.tasks[id].Holding? && m.inFlight > 0
    case _ => true
  }

  function Step(m: Limiter, e: Event): Limiter
    requires Enabled(m, e)
  {
    match e
    case Arrive(id) => m.(tasks := m.tasks[id := Entering])
    case Look(id) =>
      if m.inFlight >= m.limit then m.(tasks := m.tasks[id := Sleeping])
      else m.(inFlight := m.inFlight + 1, tasks := m.tasks[id := Holding])
    case Leave(id) => m.(inFlight := m.inFlight - 1, tasks := Notified(m.tasks - {id}))
    case Overload => m.(limit := Halved(m.limit))
    case Success => if m.limit < m.max then m.(limit := m.limit + 1, tasks := Notified(m.tasks)) else m
  }

  predicate Legal(m: Limiter, run: seq<Event>)
    decreases |run|
  {
    run == [] || (Enabled(m, run[0]) && Legal(Step(m, run[0]), run[1..]))
  }

  function After(m: Limiter, run: seq<Event>): Limiter
    requires Legal(m, run)
    decreases |run|
  {
    if run == [] then m else After(Step(m, run[0]), run[1..])
  }

  // ---------------------------------------------------------------- the invariant

  function In(tasks: map<TaskId, Phase>, phase: Phase): set<TaskId> {
    set id | id in tasks && tasks[id] == phase
  }

  /** The counter counts the admitted tasks, and nobody sleeps while there is room. */
  predicate Inv(m: Limiter) {
    && 1 <= m.limit <= m.max
    && m.inFlight == |In(m.tasks, Holding)| <= m.max
    && (In(m.tasks, Sleeping) != {} ==> m.inFlight >= m.limit)
  }

  lemma NotifiedSets(tasks: map<TaskId, Phase>)
    ensures In(Notified(tasks), Holding) == In(tasks, Holding)
    ensures In(Notified(tasks), Sleeping) == {}
    ensures In(Notified(tasks), Entering) == In(tasks, Entering) + In(tasks, Sleeping)
    ensures Notified(tasks).Keys == tasks.Keys
  {
  }

  lemma HoldersAfterStep(m: Limiter, e: Event)
    requires Enabled(m, e)
    ensures In(Step(m, e).tasks, Holding) ==
            match e
            case Look(id) => if m.inFlight >= m.limit then In(m.tasks, Holding) else In(m.tasks, Holding) + {id}
            case Leave(id) => In(m.tasks, Holding) - {id}
            case _ => In(m.tasks, Holding)
  {
    NotifiedSets(m.tasks);
    if e.Leave? {
      NotifiedSets(m.tasks - {e.id});
    }
    hide Notified;
  }

  lemma StepKeepsInv(m: Limiter, e: Event)
    requires Inv(m) && Enabled(m, e)
    ensures Inv(Step(m, e)) && Step(m, e).max == m.max
  {
    hide Notified;
    HoldersAfterStep(m, e);
    match e {
      case Arrive(id) => assert In(Step(m, e).tasks, Sleeping) == In(m.tasks, Sleeping);
      case Look(id) =>
        assert id !in In(m.tasks, Holding);
        if m.inFlight < m.limit {
          assert In(Step(m, e).tasks, Sleeping) == {};
        }
      case Leave(id) =>
        assert id in In(m.tasks, Holding);
        NotifiedSets(m.tasks - {id});
      case Overload =>
      case Success => NotifiedSets(m.tasks);
    }
  }

  lemma {:induction false} RunKeepsInv(m: Limiter, run: seq<Event>)
    requires Inv(m) && Legal(m, run)
    ensures Inv(After(m, run)) && After(m, run).max == m.max
    decreases |run|
  {
    if run != [] {
      StepKeepsInv(m, run[0]);
      RunKeepsInv(Step(m, run[0]), run[1..]);
    }
  }

  /** In every run the limit stays between 1 and the maximum, and so does what is in flight. */
  lemma NeverOverTheMaximum(max: nat, run: seq<Event>)
    requires max >= 1 && Legal(Initial(max), run)
    ensures var m := After(Initial(max), run);
            1 <= m.limit <= max && m.inFlight == |In(m.tasks, Holding)| <= max
  {
    assert In(map[], Holding) == {} && In(map[], Sleeping) == {};
    RunKeepsInv(Initial(max), run);
  }

  /** No wakeup is lost: in any run, a task that sleeps has as many tasks ahead of it as the limit allows. */
  lemma SleepersHaveAReason(max: nat, run: seq<Event>, id: TaskId)
    requires max >= 1 && Legal(Initial(max), run)
    requires var m := After(Initial(max), run); id in m.tasks && m.tasks[id].Sleeping?
    ensures var m := After(Initial(max), run);
            |In(m.tasks, Holding)| >= m.limit && exists h :: h in m.tasks && m.tasks[h].Holding? && Enabled(m, Leave(h))
  {
    assert In(map[], Holding) == {} && In(map[], Sleeping) == {};
    RunKeepsInv(Initial(max), run);
    var m := After(Initial(max), run);
    assert id in In(m.tasks, Sleeping);
    var h :| h in In(m.tasks, Holding);
  }

  /** A task is only admitted below the limit, whatever was in flight when the limit shrank. */
  lemma AdmittedWithinTheLimit(m: Limiter, id: TaskId)
    requires Inv(m) && Enabled(m, Look(id))
    ensures var n := Step(m, Look(id));
            n.tasks[id].Holding? <==> |In(m.tasks, Holding)| < m.limit
    ensures Step(m, Look(id)).tasks[id].Holding? ==> |In(Step(m, Look(id)).tasks, Holding)| <= m.limit
  {
    HoldersAfterStep(m, Look(id));
    StepKeepsInv(m, Look(id));
  }

  // ---------------------------------------------------------------- everyone gets through

  predicate Moves(e: Event) {
    e.Look? || e.Leave?
  }

  /** Bounds the number of moves left: each task leaves once and looks at most once after each leaving. */
  function Work(m: Limiter): nat {
    |m.tasks| * (|m.tasks| + 1) + |In(m.tasks, Entering)|
  }

  lemma FewerTasksLessWork(n: nat, k: nat, e: nat)
    requires k < n && e <= k
    ensures k * (k + 1) + e < n * (n + 1)
  {
    assert k * (k + 1) + e <= k * (k + 1) + k < (k + 1) * (k + 2);
    assert (k + 1) * (k + 2) <= n * (n + 1) by {
      assert n * (n + 1) - (k + 1) * (k + 2) == (n - k - 1) * (n + k + 2);
    }
  }

  lemma EnteringAreTasks(tasks: map<TaskId, Phase>)
    ensures |In(tasks, Entering)| <= |tasks|
  {
    SubsetIsSmaller(In(tasks, Entering), tasks.Keys);
    assert |tasks| == |tasks.Keys|;
  }

  lemma LeavingIsWork(m: Limiter, id: TaskId)
    requires Inv(m) && Enabled(m, Leave(id))
    ensures Work(Step(m, Leave(id))) < Work(m) && |Step(m, Leave(id)).tasks| <= |m.tasks|
  {
    var n := Step(m, Leave(id));
    NotifiedSets(m.tasks - {id});
    hide Notified;
    assert |n.tasks| == |n.tasks.Keys| && |m.tasks| == |m.tasks.Keys|;
    assert n.tasks.Keys == m.tasks.Keys - {id};
    EnteringAreTasks(n.tasks);
    hide Inv, In;
    FewerTasksLessWork(|m.tasks|, |n.tasks|, |In(n.tasks, Entering)|);
  }

  lemma LookingIsWork(m: Limiter, id: TaskId)
    requires Inv(m) && Enabled(m, Look(id))
    ensures Work(Step(m, Look(id))) < Work(m) && |Step(m, Look(id)).tasks| == |m.tasks|
  {
    var n := Step(m, Look(id));
    assert |n.tasks| == |n.tasks.Keys| && |m.tasks| == |m.tasks.Keys|;
    assert n.tasks.Keys == m.tasks.Keys;
    assert In(n.tasks, Entering) == In(m.tasks, Entering) - {id};
    assert id in In(m.tasks, Entering);
  }

  /** A success wakes the sleepers, who look again. */
  lemma SuccessAddsWork(m: Limiter)
    requires Inv(m)
    ensures Work(Step(m, Success)) <= Work(m) + |m.tasks| && |Step(m, Success).tasks| == |m.tasks|
  {
    var n := Step(m, Success);
    NotifiedSets(m.tasks);
    hide Notified;
    assert |n.tasks| == |n.tasks.Keys| && |m.tasks| == |m.tasks.Keys|;
    assert n.tasks.Keys == m.tasks.Keys;
    EnteringAreTasks(n.tasks);
    hide In;
  }

  lemma StepWork(m: Limiter, e: Event)
    requires Inv(m) && Enabled(m, e) && !e.Arrive?
    ensures var n := Step(m, e);
            && |n.tasks| <= |m.tasks|
            && Work(n) + (if Moves(e) then 1 else 0) <= Work(m) + (if e.Success? then |m.tasks| else 0)
  {
    match e
    case Look(id) => LookingIsWork(m, id);
    case Leave(id) => LeavingIsWork(m, id);
    case Success => SuccessAddsWork(m);
    case Overload => assert Step(m, e).tasks == m.tasks;
  }

  function MovesIn(run: seq<Event>): nat {
    if run == [] then 0 else (if Moves(run[0]) then 1 else 0) + MovesIn(run[1..])
  }

  function SuccessesIn(run: seq<Event>): nat {
    if run == [] then 0 else (if run[0].Success? then 1 else 0) + SuccessesIn(run[1..])
  }

  lemma FewerTasksFewerLooks(tasks: nat, left: nat, successes: nat)
    requires left <= tasks
    ensures left * successes <= tasks * successes
    ensures tasks * (1 + successes) == tasks + tasks * successes
  {
    assert (tasks - left) * successes >= 0;
  }

  /**
   Without new arrivals the looks and leaves of a run are bounded, whatever overloads and successes the
   requests meet, and while anyone is left someone can look or leave.
   */
  lemma {:induction false} EveryoneGetsThrough(m: Limiter, run: seq<Event>)
    requires Inv(m) && Legal(m, run) && forall i :: 0 <= i < |run| ==> !run[i].Arrive?
    ensures MovesIn(run) <= Work(m) + |m.tasks| * SuccessesIn(run)
    ensures After(m, run).tasks != map[] ==> exists e :: Moves(e) && Enabled(After(m, run), e)
    decreases |run|
  {
    if run == [] {
      if m.tasks != map[] {
        var e := SomeoneCanMove(m);
      }
    } else {
      StepKeepsInv(m, run[0]);
      StepWork(m, run[0]);
      hide Work, Inv, Step;
      EveryoneGetsThrough(Step(m, run[0]), run[1..]);
      FewerTasksFewerLooks(|m.tasks|, |Step(m, run[0]).tasks|, SuccessesIn(run[1..]));
    }
  }

  lemma SomeoneCanMove(m: Limiter) returns (e: Event)
    requires Inv(m) && m.tasks != map[]
    ensures Moves(e) && Enabled(m, e)
  {
    var id :| id in m.tasks;
    if m.tasks[id].Entering? {
      e := Look(id);
    } else if m.tasks[id].Holding? {
      assert id in In(m.tasks, Holding);
      e := Leave(id);
    } else {
      assert id in In(m.tasks, Sleeping);
      var h :| h in In(m.tasks, Holding);
      e := Leave(h);
    }
  }

  // ---------------------------------------------------------------- the ceiling

  function HalvedTimes(limit: nat, k: nat): nat {
    if k == 0 then limit else Halved(HalvedTimes(limit, k - 1))
  }

  lemma {:induction false} DivideTwice(a: nat, b: nat)
    requires b > 0
    ensures a / b / 2 == a / (2 * b)
  {
    var q := a / b;
    var h := q / 2;
    assert a == q * b + a % b;
    assert q == 2 * h + q % 2;
    assert a == (2 * b) * h + ((q % 2) * b + a % b) by {
      assert (2 * h + q % 2) * b == (2 * b) * h + (q % 2) * b;
    }
    var r := (q % 2) * b + a % b;
    assert 0 <= r < 2 * b;
    DivisionIsUnique(a, 2 * b, h, r);
  }

  lemma {:induction false} DivisionIsUnique(a: nat, d: nat, q: nat, r: nat)
    requires d > 0 && a == d * q + r && r < d
    ensures a / d == q
  {
    assert a / d * d + a % d == a;
    assert (a / d - q) * d == r - a % d;
    MultiplesAreApart(a / d - q, d);
  }

  lemma MultiplesAreApart(x: int, d: int)
    requires d > 0
    ensures x >= 1 ==> x * d >= d
    ensures x <= -1 ==> x * d <= -d
  {
  }

  /** `k` overloads in a row leave the limit divided by two to the `k`, but never below one. */
  lemma {:induction false} OverloadsHalve(limit: nat, k: nat)
    requires limit >= 1
    ensures HalvedTimes(limit, k) == if limit / Pow2(k) > 1 then limit / Pow2(k) else 1
  {
    if k > 0 {
      OverloadsHalve(limit, k - 1);
      DivideTwice(limit, Pow2(k - 1));
      assert Pow2(k) == 2 * Pow2(k - 1);
    }
  }

  // ---------------------------------------------------------------- the retry loop

  /** What an attempt meets: no connection, or a reply whose body can or cannot be read to its end. */
  datatype Answer = NoConnection | Reply(status: nat, body: Option<string>)

  datatype Error =
    | ConnectionFailed
    | Overloaded
    | ServerError(status: nat)
    | BadRequest
    | Authentication
    | Forbidden
    | NotFound
    | OtherHttp(status: nat)

  datatype Outcome = Answered(body: string) | Failed(error: Error)

  predicate IsOverload(a: Answer) {
    a.Reply? && a.status == 502
  }

  predicate IsServerError(a: Answer) {
    a.Reply? && 500 <= a.status < 600
  }

  /** A lost connection or a server error is worth another attempt; every other reply is final. */
  predicate WorthRetrying(a: Answer) {
    a.NoConnection? || IsServerError(a) || a.body.None?
  }

  /** What the caller gets when this answer is the last one. */
  function Verdict(a: Answer): Outcome {
    if a.NoConnection? || a.body.None? then Failed(ConnectionFailed)
    else if a.status < 400 then Answered(a.body.value)
    else
      Failed(match a.status
        case 400 => BadRequest
        case 401 => Authentication
        case 403 => Forbidden
        case 404 => NotFound
        case 502 => Overloaded
        case _ => if IsServerError(a) then ServerError(a.status) else OtherHttp(a.status))
  }

  /** The overloads among the first `n` answers. */
  function Overloads(answer: nat -> Answer, n: nat): nat {
    if n == 0 then 0 else Overloads(answer, n - 1) + if IsOverload(answer(n)) then 1 else 0
  }

  function AtLeastOne(n: nat): nat {
    if n > 1 then n else 1
  }

  /** The loop stops at attempt `n`: all before were worth retrying, and this one is final or the last. */
  predicate StopsAt(answer: nat -> Answer, maxAttempts: nat, n: nat) {
    && 1 <= n <= AtLeastOne(maxAttempts)
    && (forall k :: 1 <= k < n ==> WorthRetrying(answer(k)))
    && (n == AtLeastOne(maxAttempts) || !WorthRetrying(answer(n)))
  }

  lemma StopsOnce(answer: nat -> Answer, maxAttempts: nat, n: nat, k: nat)
    requires StopsAt(answer, maxAttempts, n) && StopsAt(answer, maxAttempts, k)
    ensures n == k
  {
  }

  /** Wrong credentials are never tried twice, as long as the reply to the first try can be read. */
  lemma BadCredentialsAreNotRetried(answer: nat -> Answer, maxAttempts: nat, n: nat)
    requires StopsAt(answer, maxAttempts, n)
    requires answer(1).Reply? && answer(1).status == 401
    ensures n == 1 <==> answer(1).body.Some? || maxAttempts <= 1
    ensures answer(1).body.Some? ==> Verdict(answer(n)) == Failed(Authentication)
  {
    assert n > 1 ==> WorthRetrying(answer(1));
  }

  /** A request fails as overloaded exactly when the last of all its attempts met a readable 502. */
  lemma OverloadedOnlyAtTheEnd(answer: nat -> Answer, maxAttempts: nat, n: nat)
    requires StopsAt(answer, maxAttempts, n)
    ensures Verdict(answer(n)) == Failed(Overloaded) <==>
            IsOverload(answer(n)) && answer(n).body.Some? && n == AtLeastOne(maxAttempts)
    ensures Verdict(answer(n)).Answered? ==> !WorthRetrying(answer(n))
  {
  }

  /** Which replies are tried again, by status; a reply that cannot be read to its end counts as no connection. */
  lemma RetriedStatuses(a: Answer)
    ensures WorthRetrying(a) <==> a.NoConnection? || a.body.None? || 500 <= a.status <= 599
  {
  }

  /** What a caller gets for each readable status that is the last one. */
  lemma VerdictByStatus(status: nat, body: string)
    ensures var verdict := Verdict(Reply(status, Some(body)));
            && (verdict == Answered(body) <==> status <= 399)
            && (verdict == Failed(BadRequest) <==> status == 400)
            && (verdict == Failed(Authentication) <==> status == 401)
            && (verdict == Failed(Forbidden) <==> status == 403)
            && (verdict == Failed(NotFound) <==> status == 404)
            && (verdict == Failed(Overloaded) <==> status == 502)
            && (verdict == Failed(ServerError(status)) <==> 500 <= status <= 599 && status != 502)
            && (verdict == Failed(OtherHttp(status)) <==>
                (400 <= status < 500 || status > 599) && status !in {400, 401, 403, 404})
  {
  }

  /** Without a connection, or with a reply that breaks off, the request has failed to connect. */
  lemma VerdictOfBroken(a: Answer)
    ensures Verdict(a) == Failed(ConnectionFailed) <==> a.NoConnection? || a.body.None?
  {
  }

  /** The attempts before and with `n` that met a 502. */
  function OverloadedAttempts(answer: nat -> Answer, n: nat): set<nat> {
    set k: nat | 1 <= k <= n && answer(k).Reply? && answer(k).status == 502
  }

  lemma OneMoreAttempt(answer: nat -> Answer, n: nat)
    requires n > 0
    ensures n !in OverloadedAttempts(answer, n - 1)
    ensures OverloadedAttempts(answer, n) ==
            OverloadedAttempts(answer, n - 1) + if IsOverload(answer(n)) then {n} else {}
  {
  }

  lemma NoAttempt(answer: nat -> Answer)
    ensures OverloadedAttempts(answer, 0) == {}
  {
  }

  lemma {:induction false} OverloadsAreCounted(answer: nat -> Answer, n: nat)
    ensures Overloads(answer, n) == |OverloadedAttempts(answer, n)|
  {
    hide OverloadedAttempts, IsOverload;
    if n == 0 {
      NoAttempt(answer);
    } else {
      OneMoreAttempt(answer, n);
      OverloadsAreCounted(answer, n - 1);
    }
  }

  /** A request makes one attempt or at most the configured number, and stops at the first it need not repeat. */
  lemma AttemptsAreBounded(answer: nat -> Answer, maxAttempts: nat, n: nat)
    ensures StopsAt(answer, maxAttempts, n) <==>
            && n >= 1 && (n <= maxAttempts || n == 1)
            && (forall k :: 1 <= k < n ==> WorthRetrying(answer(k)))
            && (n >= maxAttempts || !WorthRetrying(answer(n)))
  {
    hide WorthRetrying;
  }

  lemma {:induction false} RunGrows(m: Limiter, run: seq<Event>, e: Event)
    requires Legal(m, run) && Enabled(After(m, run), e)
    ensures Legal(m, run + [e]) && After(m, run + [e]) == Step(After(m, run), e)
    decreases |run|
  {
    if run == [] {
      var n := Step(m, e);
      assert Legal(n, []) && After(n, []) == n;
      assert (run + [e])[1..] == [];
    } else {
      hide Step, Enabled;
      assert (run + [e])[1..] == run[1..] + [e];
      RunGrows(Step(m, run[0]), run[1..], e);
    }
  }

  /** A new limiter admits as many tasks as the maximum allows. */
  lemma {:induction false} NewLimiterAdmits(max: nat, n: nat) returns (run: seq<Event>)
    requires n <= max
    ensures Legal(Initial(max), run) && |run| == 2 * n
    ensures var m := After(Initial(max), run);
            && m.max == m.limit == max && m.inFlight == n
            && (forall id: TaskId :: id in m.tasks <==> id < n)
            && (forall id :: id in m.tasks ==> m.tasks[id].Holding?)
  {
    if n == 0 {
      run := [];
    } else {
      var before := NewLimiterAdmits(max, n - 1);
      var m := After(Initial(max), before);
      RunGrows(Initial(max), before, Arrive(n - 1));
      RunGrows(Initial(max), before + [Arrive(n - 1)], Look(n - 1));
      run := before + [Arrive(n - 1)] + [Look(n - 1)];
      assert After(Initial(max), run).tasks == m.tasks[n - 1 := Entering][n - 1 := Holding];
    }
  }

  // ---------------------------------------------------------------- the classes themselves

  class AdaptiveLimiter {
    const max: nat
    var limit: nat
    var inFlight: nat
    var tasks: map<TaskId, Phase>

    ghost function State(): Limiter
      reads this
    {
      Limiter(max, limit, inFlight, tasks)
    }

    constructor (max: nat)
      ensures State() == Initial(max)
    {
      this.max, limit, inFlight, tasks := max, max, 0, map[];
    }

    /** One round of the waiting loop of `__aenter__`. */
    method LookAtLimit(id: TaskId)
      requires Enabled(State(), Look(id))
      modifies this
      ensures State() == Step(old(State()), Look(id))
    {
      if inFlight >= limit {
        tasks := tasks[id := Sleeping];
        return;
      }
      inFlight := inFlight + 1;
      tasks := tasks[id := Holding];
    }

    method Exit(id: TaskId)
      requires Enabled(State(), Leave(id))
      modifies this
      ensures State() == Step(old(State()), Leave(id))
    {
      inFlight := inFlight - 1;
      tasks := Notified(tasks - {id});
    }

    method RecordOverload()
      modifies this
      ensures State() == Step(old(State()), Overload)
    {
      limit := if limit / 2 > 1 then limit / 2 else 1;
    }

    method RecordSuccess()
      modifies this
      ensures State() == Step(old(State()), Success)
    {
      if limit < max {
        limit := limit + 1;
        tasks := Notified(tasks);
      }
    }
  }

  class RestClient {
    const limiter: AdaptiveLimiter
    const maxAttempts: nat

    constructor (maxInflight: nat, maxAttempts: nat)
      ensures fresh(limiter) && limiter.State() == Initial(maxInflight) && this.maxAttempts == maxAttempts
    {
      limiter := new AdaptiveLimiter(maxInflight);
      this.maxAttempts := maxAttempts;
    }

    /** `answer(k)` is what the network says to attempt `k`; other requests are not under way. */
    method Request(answer: nat -> Answer) returns (outcome: Outcome, attempts: nat)
      modifies limiter
      ensures StopsAt(answer, maxAttempts, attempts)
      ensures outcome == Verdict(answer(attempts))
      ensures limiter.limit ==
              var low := HalvedTimes(old(limiter.limit), Overloads(answer, attempts));
              if outcome.Answered? && low < limiter.max then low + 1 else low
    {
      attempts := 0;
      while true
        invariant attempts < AtLeastOne(maxAttempts)
        invariant forall k :: 1 <= k <= attempts ==> WorthRetrying(answer(k))
        invariant limiter.limit == HalvedTimes(old(limiter.limit), Overloads(answer, attempts))
        decreases AtLeastOne(maxAttempts) - attempts
      {
        attempts := attempts + 1;
        var a := answer(attempts);
        var error := None;
        if a.NoConnection? {
          error := Some(ConnectionFailed);
        } else {
          var retry, raised := HandleResponse(a, attempts);
          if !retry && raised.None? && a.body.Some? {
            limiter.RecordSuccess();
            return Answered(a.body.value), attempts;
          }
          if !retry && raised.Some? && raised != Some(ConnectionFailed) {
            return Failed(raised.value), attempts;
          }
          error := if retry then None else Some(ConnectionFailed);
        }
        if error.Some? && attempts >= maxAttempts {
          return Failed(error.value), attempts;
        }
      }
    }

    /** Whether to retry, or else what it raises; reading the text of an error can lose the connection. */
    method HandleResponse(a: Answer, attempt: nat) returns (retry: bool, raised: Option<Error>)
      requires a.Reply?
      modifies limiter
      ensures retry <==> IsServerError(a) && attempt < maxAttempts
      ensures raised == if retry || a.status < 400 then None else Some(Verdict(a).error)
      ensures limiter.State() == if IsOverload(a) then Step(old(limiter.State()), Overload) else old(limiter.State())
    {
      var kind: Error;
      if a.status == 502 {
        limiter.RecordOverload();
        if attempt < maxAttempts {
          return true, None;
        }
        kind := Overloaded;
      } else if 500 <= a.status < 600 {
        if attempt < maxAttempts {
          return true, None;
        }
        kind := ServerError(a.status);
      } else if a.status == 400 {
        kind := BadRequest;
      } else if a.status == 401 {
        kind := Authentication;
      } else if a.status == 403 {
        kind := Forbidden;
      } else if a.status == 404 {
        kind := NotFound;
      } else if a.status >= 400 {
        kind := OtherHttp(a.status);
      } else {
        return false, None;
      }
      return false, Some(if a.body.None? then ConnectionFailed else kind);
    }
  }
}
