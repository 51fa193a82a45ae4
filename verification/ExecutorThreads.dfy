/**
  The executor's threads as a transition system. One dispatcher handles method calls in turn while
  any number of workers run; counters are read and changed under a mutex, each time in one step.
 */
module ExecutorThreads {
  import opened ExecutorWorker
  import opened ExecutorRuns

  datatype Method = Method(iface: string, name: string)

  /** What a counter counts: all threads, those of an interface, or those of a method. */
  datatype Scope = All | OfInterface(iface: string) | OfMethod(m: Method)

  predicate Covers(scope: Scope, m: Method) {
    match scope
    case All => true
    case OfInterface(iface) => iface == m.iface
    case OfMethod(own) => own == m
  }

  /** Limits of interfaces and methods, and what each method enables and may capture. */
  datatype Config = Config(limits: map<Scope, int>, flags: Method -> Flags, capture: Method -> Limits)

  /** A method the module exports: it and its interface have a limit. */
  predicate Known(cfg: Config, m: Method) {
    OfInterface(m.iface) in cfg.limits && OfMethod(m) in cfg.limits
  }

  /** A counter for the module and one for each limit. */
  predicate Configured(cfg: Config, counters: map<Scope, int>) {
    All in counters && All !in cfg.limits && forall scope | scope in cfg.limits :: scope in counters
  }

  predicate LimitReached(cfg: Config, counters: map<Scope, int>, m: Method)
    requires Configured(cfg, counters) && Known(cfg, m)
  {
    counters[OfInterface(m.iface)] >= cfg.limits[OfInterface(m.iface)] || counters[OfMethod(m)] >= cfg.limits[OfMethod(m)]
  }

  /** Where a worker is between its start and giving its counters back. */
  datatype Phase = Launched | Authorized | Parsed | Watching(worker: Worker) | Replied | Gone

  datatype Thread = Thread(m: Method, phase: Phase)

  /** The dispatcher: idle, past the limit check, or between starting a thread and counting it. */
  datatype Dispatcher = Idle | Admitted(call: nat, m: Method) | Started(call: nat, m: Method)

  datatype System = System(
    counters: map<Scope, int>,
    dispatcher: Dispatcher,
    threads: map<nat, Thread>,
    answers: map<nat, nat>,
    releases: map<nat, nat>)

  function Adjusted(counters: map<Scope, int>, m: Method, delta: int): map<Scope, int> {
    map scope | scope in counters :: if Covers(scope, m) then counters[scope] + delta else counters[scope]
  }

  function Bumped(counts: map<nat, nat>, c: nat): map<nat, nat> {
    counts[c := (if c in counts then counts[c] else 0) + 1]
  }

  datatype Step =
    | Refuse(call: nat, m: Method)
    | Admit(call: nat, m: Method)
    | Start
    | CountUp
    | RefuseAuthorization(c: nat)
    | Authorize(c: nat)
    | FailParse(c: nat)
    | Parse(c: nat)
    | FailSpawn(c: nat)
    | Spawn(c: nat)
    | Deliver(c: nat, e: Event)
    | Release(c: nat)

  predicate Unused(s: System, call: nat) {
    call !in s.threads && call !in s.answers
  }

  predicate Incoming(cfg: Config, s: System, call: nat, m: Method) {
    s.dispatcher.Idle? && Unused(s, call) && Configured(cfg, s.counters) && Known(cfg, m)
  }

  predicate In(s: System, c: nat, phase: Phase) {
    c in s.threads && s.threads[c].phase == phase
  }

  /** What may happen next: any one thing, by the dispatcher or by any worker. */
  predicate Can(cfg: Config, s: System, step: Step) {
    match step
    case Refuse(call, m) => Incoming(cfg, s, call, m) && LimitReached(cfg, s.counters, m)
    case Admit(call, m) => Incoming(cfg, s, call, m) && !LimitReached(cfg, s.counters, m)
    case Start => s.dispatcher.Admitted?
    case CountUp => s.dispatcher.Started?
    case RefuseAuthorization(c) => In(s, c, Launched)
    case Authorize(c) => In(s, c, Launched)
    case FailParse(c) => In(s, c, Authorized)
    case Parse(c) => In(s, c, Authorized)
    case FailSpawn(c) => In(s, c, Parsed)
    case Spawn(c) => In(s, c, Parsed)
    case Deliver(c, e) => c in s.threads && s.threads[c].phase.Watching? && Enabled(s.threads[c].phase.worker, e)
    case Release(c) => In(s, c, Replied)
  }

  function Moved(s: System, c: nat, phase: Phase): System
    requires c in s.threads
  {
    s.(threads := s.threads[c := s.threads[c].(phase := phase)])
  }

  function Answering(s: System, c: nat): System
    requires c in s.threads
  {
    Moved(s, c, Replied).(answers := Bumped(s.answers, c))
  }

  function Do(cfg: Config, s: System, step: Step): System
    requires Can(cfg, s, step)
  {
    match step
    case Refuse(call, m) => s.(answers := Bumped(s.answers, call))
    case Admit(call, m) => s.(dispatcher := Admitted(call, m))
    case Start =>
      s.(dispatcher := Started(s.dispatcher.call, s.dispatcher.m),
         threads := s.threads[s.dispatcher.call := Thread(s.dispatcher.m, Launched)])
    case CountUp => s.(dispatcher := Idle, counters := Adjusted(s.counters, s.dispatcher.m, 1))
    case RefuseAuthorization(c) => Answering(s, c)
    case Authorize(c) => Moved(s, c, Authorized)
    case FailParse(c) => Answering(s, c)
    case Parse(c) => Moved(s, c, Parsed)
    case FailSpawn(c) => Answering(s, c)
    case Spawn(c) => Moved(s, c, Watching(NewWorker(cfg.flags(s.threads[c].m))))
    case Deliver(c, e) =>
      var w := Next(s.threads[c].phase.worker, cfg.flags(s.threads[c].m), cfg.capture(s.threads[c].m), e);
      if w.Finished() then Answering(s, c) else Moved(s, c, Watching(w))
    case Release(c) =>
      Moved(s, c, Gone).(counters := Adjusted(s.counters, s.threads[c].m, -1), releases := Bumped(s.releases, c))
  }

  // ---------- the invariant ----------

  /** The threads of a scope that have not given their counters back. */
  function Live(threads: map<nat, Thread>, scope: Scope): set<nat> {
    set c | c in threads && threads[c].phase != Gone && Covers(scope, threads[c].m)
  }

  /** A thread the dispatcher has started but not counted yet. */
  function Pending(d: Dispatcher, scope: Scope): nat {
    if d.Started? && Covers(scope, d.m) then 1 else 0
  }

  function Count(counts: map<nat, nat>, c: nat): nat {
    if c in counts then counts[c] else 0
  }

  /** A counter is the number of live threads, but for a started thread that is not counted yet. */
  ghost predicate CountersExact(s: System) {
    forall scope | scope in s.counters ::
      s.counters[scope] == |Live(s.threads, scope)| - Pending(s.dispatcher, scope)
  }

  function Limit(cfg: Config, scope: Scope): int
    requires scope in cfg.limits
  {
    if cfg.limits[scope] > 0 then cfg.limits[scope] else 0
  }

  /** No limit is exceeded, and a call past the check still has room. */
  ghost predicate Limited(cfg: Config, s: System) {
    && (forall scope | scope in cfg.limits :: |Live(s.threads, scope)| <= Limit(cfg, scope))
    && (s.dispatcher.Admitted? ==>
          forall scope | scope in cfg.limits && Covers(scope, s.dispatcher.m) ::
            |Live(s.threads, scope)| < cfg.limits[scope])
  }

  /** A thread's call has been answered, and its counters given back, as its phase says. */
  predicate SettledThread(s: System, c: nat)
    requires c in s.threads
  {
    var phase := s.threads[c].phase;
    && Count(s.answers, c) == (if phase == Replied || phase == Gone then 1 else 0)
    && Count(s.releases, c) == (if phase == Gone then 1 else 0)
    && (phase.Watching? ==> Attached(phase.worker) && !phase.worker.Finished())
  }

  /** Calls without a thread have been answered once or wait for theirs. */
  ghost predicate Undisturbed(s: System) {
    && (forall c | c !in s.threads && c in s.answers :: s.answers[c] == 1)
    && (forall c | c !in s.threads :: c !in s.releases)
    && (s.dispatcher.Admitted? ==> Unused(s, s.dispatcher.call))
    && (s.dispatcher.Started? ==> s.dispatcher.call in s.threads)
  }

  ghost predicate Settled(s: System) {
    (forall c | c in s.threads :: SettledThread(s, c)) && Undisturbed(s)
  }

  ghost predicate Inv(cfg: Config, s: System) {
    Configured(cfg, s.counters) && CountersExact(s) && Limited(cfg, s) && Settled(s)
  }

  // ---------- every step keeps it ----------

  lemma LiveMoved(threads: map<nat, Thread>, c: nat, phase: Phase, scope: Scope)
    requires c in threads && threads[c].phase != Gone
    ensures var now := threads[c := threads[c].(phase := phase)];
            Live(now, scope) == if phase == Gone then Live(threads, scope) - {c} else Live(threads, scope)
    ensures c in Live(threads, scope) <==> Covers(scope, threads[c].m)
  {
  }

  lemma LiveStarted(threads: map<nat, Thread>, c: nat, m: Method, scope: Scope)
    requires c !in threads
    ensures Live(threads[c := Thread(m, Launched)], scope) ==
            Live(threads, scope) + if Covers(scope, m) then {c} else {}
    ensures c !in Live(threads, scope)
  {
  }

  /** How many live threads a step adds to a scope. */
  function Change(s: System, step: Step, scope: Scope): int {
    match step
    case Start => if s.dispatcher.Admitted? && Covers(scope, s.dispatcher.m) then 1 else 0
    case Release(c) => if c in s.threads && Covers(scope, s.threads[c].m) then -1 else 0
    case _ => 0
  }

  predicate OfWorker(step: Step) {
    !step.Refuse? && !step.Admit? && !step.Start? && !step.CountUp?
  }

  function PhaseAfter(cfg: Config, s: System, step: Step): Phase
    requires Can(cfg, s, step) && OfWorker(step)
  {
    match step
    case Authorize(_) => Authorized
    case Parse(_) => Parsed
    case Spawn(c) => Watching(NewWorker(cfg.flags(s.threads[c].m)))
    case Deliver(c, e) =>
      var w := Next(s.threads[c].phase.worker, cfg.flags(s.threads[c].m), cfg.capture(s.threads[c].m), e);
      if w.Finished() then Replied else Watching(w)
    case Release(_) => Gone
    case _ => Replied
  }

  lemma WorkerMoves(cfg: Config, s: System, step: Step)
    requires Can(cfg, s, step) && OfWorker(step)
    ensures step.c in s.threads && s.threads[step.c].phase != Gone
    ensures PhaseAfter(cfg, s, step) == Gone <==> step.Release?
    ensures Do(cfg, s, step).threads == s.threads[step.c := s.threads[step.c].(phase := PhaseAfter(cfg, s, step))]
  {
    hide Next, Enabled;
  }

  lemma LiveStep(cfg: Config, s: System, step: Step, scope: Scope)
    requires Can(cfg, s, step) && Settled(s)
    ensures |Live(Do(cfg, s, step).threads, scope)| == |Live(s.threads, scope)| + Change(s, step, scope)
  {
    if OfWorker(step) {
      WorkerMoves(cfg, s, step);
      hide Live, Can, Do, PhaseAfter, SettledThread, Undisturbed, Covers;
      LiveMoved(s.threads, step.c, PhaseAfter(cfg, s, step), scope);
    } else {
      hide Live, SettledThread, Covers, Incoming;
      if step.Start? {
        LiveStarted(s.threads, s.dispatcher.call, s.dispatcher.m, scope);
      }
    }
  }

  lemma CountersStep(cfg: Config, s: System, step: Step)
    requires Can(cfg, s, step)
    ensures Do(cfg, s, step).counters.Keys == s.counters.Keys
    ensures forall scope | scope in s.counters ::
              && Do(cfg, s, step).counters[scope] ==
                 s.counters[scope] + Change(s, step, scope) + Pending(s.dispatcher, scope) - Pending(Do(cfg, s, step).dispatcher, scope)
  {
    hide Next, Enabled;
  }

  lemma CountedStep(cfg: Config, s: System, step: Step)
    requires Can(cfg, s, step) && CountersExact(s) && Settled(s)
    ensures CountersExact(Do(cfg, s, step))
  {
    CountersStep(cfg, s, step);
    forall scope | scope in s.counters
      ensures Do(cfg, s, step).counters[scope] ==
              |Live(Do(cfg, s, step).threads, scope)| - Pending(Do(cfg, s, step).dispatcher, scope)
    {
      LiveStep(cfg, s, step, scope);
      hide Do, Can, Live, Change, Pending;
    }
    hide Do, Can, Live, Pending;
  }

  lemma ScopeStaysLimited(cfg: Config, s: System, step: Step, scope: Scope)
    requires Can(cfg, s, step) && Inv(cfg, s) && scope in cfg.limits
    ensures |Live(Do(cfg, s, step).threads, scope)| <= Limit(cfg, scope)
  {
    LiveStep(cfg, s, step, scope);
    hide Live, Do, Can, Settled, CountersExact, Covers;
  }

  /** The dispatcher admits a call only if there is room, and room stays until it starts the thread. */
  lemma AdmittedHasRoom(cfg: Config, s: System, step: Step, scope: Scope)
    requires Can(cfg, s, step) && Inv(cfg, s) && scope in cfg.limits
    requires var d := Do(cfg, s, step).dispatcher; d.Admitted? && Covers(scope, d.m)
    ensures |Live(Do(cfg, s, step).threads, scope)| < cfg.limits[scope]
  {
    LiveStep(cfg, s, step, scope);
    if step.Admit? {
      assert s.counters[scope] == |Live(s.threads, scope)|;
      hide Live, Settled, CountersExact, Limited;
    } else {
      AdmittedBefore(cfg, s, step);
      hide Live, Do, Can, Settled, CountersExact, Covers;
    }
  }

  lemma AdmittedBefore(cfg: Config, s: System, step: Step)
    requires Can(cfg, s, step) && Do(cfg, s, step).dispatcher.Admitted? && !step.Admit?
    ensures s.dispatcher == Do(cfg, s, step).dispatcher && !step.Start?
  {
    hide Next, Enabled, Incoming;
  }

  lemma LimitedStep(cfg: Config, s: System, step: Step)
    requires Can(cfg, s, step) && Inv(cfg, s)
    ensures Limited(cfg, Do(cfg, s, step))
  {
    hide Live, Do, Can, Covers, Inv;
    var t := Do(cfg, s, step);
    forall scope | scope in cfg.limits
      ensures |Live(t.threads, scope)| <= Limit(cfg, scope)
    {
      ScopeStaysLimited(cfg, s, step, scope);
    }
    forall scope | t.dispatcher.Admitted? && scope in cfg.limits && Covers(scope, t.dispatcher.m)
      ensures |Live(t.threads, scope)| < cfg.limits[scope]
    {
      AdmittedHasRoom(cfg, s, step, scope);
    }
  }

  lemma DeliverSettled(cfg: Config, s: System, c: nat, e: Event)
    requires Can(cfg, s, Deliver(c, e)) && SettledThread(s, c)
    ensures SettledThread(Do(cfg, s, Deliver(c, e)), c)
  {
    StepKeepsAttached(s.threads[c].phase.worker, cfg.flags(s.threads[c].m), cfg.capture(s.threads[c].m), e);
    hide Next, Enabled, Attached;
  }

  /** A thread that a step does not concern is left alone. */
  lemma OtherThread(cfg: Config, s: System, step: Step, c: nat)
    requires Can(cfg, s, step) && Settled(s) && c in s.threads
    requires !OfWorker(step) || c != step.c
    ensures var t := Do(cfg, s, step);
            && c in t.threads && t.threads[c] == s.threads[c]
            && Count(t.answers, c) == Count(s.answers, c) && Count(t.releases, c) == Count(s.releases, c)
  {
    hide SettledThread, Next, Enabled;
  }

  lemma NewThread(cfg: Config, s: System)
    requires Can(cfg, s, Start) && Settled(s)
    ensures SettledThread(Do(cfg, s, Start), s.dispatcher.call)
  {
    hide Attached;
  }

  lemma OwnThread(cfg: Config, s: System, step: Step)
    requires Can(cfg, s, step) && OfWorker(step)
    requires step.c in s.threads && SettledThread(s, step.c)
    ensures SettledThread(Do(cfg, s, step), step.c)
  {
    if step.Deliver? {
      DeliverSettled(cfg, s, step.c, step.e);
    } else {
      hide Next, Enabled, Incoming;
    }
  }

  lemma SettledThreadStep(cfg: Config, s: System, step: Step, c: nat)
    requires Can(cfg, s, step) && Settled(s) && c in Do(cfg, s, step).threads
    ensures SettledThread(Do(cfg, s, step), c)
  {
    if c !in s.threads {
      NewThread(cfg, s);
      hide SettledThread, Next, Enabled, Incoming, Undisturbed;
    } else if !OfWorker(step) || c != step.c {
      OtherThread(cfg, s, step, c);
      hide Do, Can, Attached;
    } else {
      OwnThread(cfg, s, step);
    }
  }

  /** A worker's step is about a call that has a thread and leaves the dispatcher alone. */
  lemma WorkerUndisturbed(cfg: Config, s: System, step: Step)
    requires Can(cfg, s, step) && Undisturbed(s) && OfWorker(step)
    ensures Undisturbed(Do(cfg, s, step))
  {
    hide Attached, Next, Enabled, Incoming;
  }

  lemma UndisturbedStep(cfg: Config, s: System, step: Step)
    requires Can(cfg, s, step) && Undisturbed(s)
    ensures Undisturbed(Do(cfg, s, step))
  {
    if !OfWorker(step) {
      hide Attached, Next, Enabled, SettledThread;
    } else {
      WorkerUndisturbed(cfg, s, step);
      hide Do, Can, Undisturbed;
    }
  }

  lemma SettledStep(cfg: Config, s: System, step: Step)
    requires Can(cfg, s, step) && Settled(s)
    ensures Settled(Do(cfg, s, step))
  {
    UndisturbedStep(cfg, s, step);
    forall c | c in Do(cfg, s, step).threads
      ensures SettledThread(Do(cfg, s, step), c)
    {
      SettledThreadStep(cfg, s, step, c);
    }
    hide Do, Can, Unused, SettledThread;
  }

  lemma StepKeepsInv(cfg: Config, s: System, step: Step)
    requires Can(cfg, s, step) && Inv(cfg, s)
    ensures Inv(cfg, Do(cfg, s, step))
  {
    CountersStep(cfg, s, step);
    CountedStep(cfg, s, step);
    LimitedStep(cfg, s, step);
    SettledStep(cfg, s, step);
    hide Do, Can, CountersExact, Limited, Settled;
  }

  // ---------- whole runs ----------

  /** Nothing has been called yet. */
  predicate Initial(cfg: Config, s: System) {
    && Configured(cfg, s.counters)
    && (forall scope | scope in s.counters :: s.counters[scope] == 0)
    && s.dispatcher == Idle && s.threads == map[] && s.answers == map[] && s.releases == map[]
  }

  /** These steps, in this interleaving, lead from `s` to `t`. */
  predicate Reaches(cfg: Config, s: System, steps: seq<Step>, t: System)
    decreases |steps|
  {
    if steps == [] then s == t
    else Can(cfg, s, steps[0]) && Reaches(cfg, Do(cfg, s, steps[0]), steps[1..], t)
  }

  lemma {:induction false} RunKeepsInv(cfg: Config, s: System, steps: seq<Step>, t: System)
    requires Reaches(cfg, s, steps, t) && Inv(cfg, s)
    ensures Inv(cfg, t)
    decreases |steps|
  {
    if steps != [] {
      StepKeepsInv(cfg, s, steps[0]);
      hide Inv, Can, Do;
      RunKeepsInv(cfg, Do(cfg, s, steps[0]), steps[1..], t);
    }
  }

  lemma InitialInv(cfg: Config, s: System)
    requires Initial(cfg, s)
    ensures Inv(cfg, s)
  {
    assert forall scope :: Live(s.threads, scope) == {};
  }

  /** In every interleaving, the invariant holds. */
  lemma AlwaysInv(cfg: Config, s: System, steps: seq<Step>, t: System)
    requires Initial(cfg, s) && Reaches(cfg, s, steps, t)
    ensures Inv(cfg, t)
  {
    InitialInv(cfg, s);
    RunKeepsInv(cfg, s, steps, t);
  }

  /** Never more live threads than the limit of their interface or method. */
  lemma LimitsHold(cfg: Config, s: System, steps: seq<Step>, t: System)
    requires Initial(cfg, s) && Reaches(cfg, s, steps, t)
    ensures forall scope | scope in cfg.limits ::
              |Live(t.threads, scope)| <= cfg.limits[scope] || Live(t.threads, scope) == {}
  {
    AlwaysInv(cfg, s, steps, t);
    hide Live, CountersExact, Settled;
    forall scope | scope in cfg.limits && cfg.limits[scope] <= 0
      ensures Live(t.threads, scope) == {}
    {
      assert |Live(t.threads, scope)| == 0;
    }
  }

  /**
    The module says it is busy if and only if a thread is live besides one that is started but not
    yet counted; so outside that window exactly if some thread is live.
   */
  lemma BusyExact(cfg: Config, s: System, steps: seq<Step>, t: System)
    requires Initial(cfg, s) && Reaches(cfg, s, steps, t)
    ensures All in t.counters
    ensures t.counters[All] > 0 <==> |Live(t.threads, All)| > Pending(t.dispatcher, All)
    ensures !t.dispatcher.Started? ==> (t.counters[All] > 0 <==> exists c :: c in t.threads && t.threads[c].phase != Gone)
  {
    AlwaysInv(cfg, s, steps, t);
    BusyMeans(cfg, t);
  }

  lemma BusyMeans(cfg: Config, t: System)
    requires Inv(cfg, t)
    ensures All in t.counters
    ensures t.counters[All] > 0 <==> |Live(t.threads, All)| > Pending(t.dispatcher, All)
    ensures !t.dispatcher.Started? ==> (t.counters[All] > 0 <==> exists c :: c in t.threads && t.threads[c].phase != Gone)
  {
    hide Limited, Settled;
    var live := Live(t.threads, All);
    assert forall c :: c in t.threads && t.threads[c].phase != Gone <==> c in live;
    if |live| > 0 {
      var c :| c in live;
    }
  }

  /** While the dispatcher looks at a call, the counters it compares are numbers of live threads. */
  lemma LimitMeans(cfg: Config, t: System, m: Method)
    requires Inv(cfg, t) && !t.dispatcher.Started? && Known(cfg, m)
    ensures LimitReached(cfg, t.counters, m) <==>
            || |Live(t.threads, OfInterface(m.iface))| >= cfg.limits[OfInterface(m.iface)]
            || |Live(t.threads, OfMethod(m))| >= cfg.limits[OfMethod(m)]
  {
    hide Limited, Settled, Live;
  }

  /** The dispatcher has started a thread and not counted it. */
  lemma StartedRun(cfg: Config, s: System, m: Method) returns (t: System)
    requires Initial(cfg, s) && Known(cfg, m)
    requires cfg.limits[OfInterface(m.iface)] > 0 && cfg.limits[OfMethod(m)] > 0
    ensures Reaches(cfg, s, [Admit(0, m), Start], t)
    ensures t.threads == map[0 := Thread(m, Launched)] && All in t.counters && t.counters[All] == 0
  {
    t := Do(cfg, Do(cfg, s, Admit(0, m)), Start);
    ReachesTwo(cfg, s, Admit(0, m), Start);
  }

  lemma EarlyRelease(cfg: Config, t: System, m: Method) returns (u: System)
    requires t.threads == map[0 := Thread(m, Launched)] && All in t.counters && t.counters[All] == 0
    ensures Reaches(cfg, t, [RefuseAuthorization(0), Release(0)], u)
    ensures All in u.counters && u.counters[All] == -1
  {
    u := Do(cfg, Do(cfg, t, RefuseAuthorization(0)), Release(0));
    ReachesTwo(cfg, t, RefuseAuthorization(0), Release(0));
  }

  /** A thread can be live while the module's counter is zero. */
  lemma BusyCanMiss(cfg: Config, s: System, m: Method)
    requires Initial(cfg, s) && Known(cfg, m)
    requires cfg.limits[OfInterface(m.iface)] > 0 && cfg.limits[OfMethod(m)] > 0
    ensures exists steps, t ::
              Reaches(cfg, s, steps, t) && All in t.counters && Live(t.threads, All) != {} && t.counters[All] == 0
  {
    var t := StartedRun(cfg, s, m);
    assert 0 in Live(t.threads, All);
  }

  /** A thread that gives its counters back before it is counted takes them below zero. */
  lemma CounterCanGoBelow(cfg: Config, s: System, m: Method)
    requires Initial(cfg, s) && Known(cfg, m)
    requires cfg.limits[OfInterface(m.iface)] > 0 && cfg.limits[OfMethod(m)] > 0
    ensures exists steps, t :: Reaches(cfg, s, steps, t) && All in t.counters && t.counters[All] == -1
  {
    var t := StartedRun(cfg, s, m);
    var u := EarlyRelease(cfg, t, m);
    ReachesOn(cfg, s, [Admit(0, m), Start], t, [RefuseAuthorization(0), Release(0)], u);
  }

  lemma ReachesTwo(cfg: Config, s: System, one: Step, two: Step)
    requires Can(cfg, s, one) && Can(cfg, Do(cfg, s, one), two)
    ensures Reaches(cfg, s, [one, two], Do(cfg, Do(cfg, s, one), two))
  {
    hide Can, Do;
    assert [one, two][1..] == [two] && [two][1..] == [];
    assert Reaches(cfg, Do(cfg, s, one), [two], Do(cfg, Do(cfg, s, one), two));
  }

  lemma {:induction false} ReachesOn(cfg: Config, s: System, steps: seq<Step>, t: System, more: seq<Step>, u: System)
    requires Reaches(cfg, s, steps, t) && Reaches(cfg, t, more, u)
    ensures Reaches(cfg, s, steps + more, u)
    decreases |steps|
  {
    hide Can, Do;
    if steps == [] {
      assert steps + more == more;
    } else {
      ReachesOn(cfg, Do(cfg, s, steps[0]), steps[1..], t, more, u);
      assert (steps + more)[1..] == steps[1..] + more;
    }
  }

  /** The calls that have come in. */
  function Arrived(s: System): set<nat> {
    s.threads.Keys + s.answers.Keys + if s.dispatcher.Admitted? then {s.dispatcher.call} else {}
  }

  function Calls(steps: seq<Step>): set<nat> {
    if steps == [] then {}
    else (if steps[0].Refuse? || steps[0].Admit? then {steps[0].call} else {}) + Calls(steps[1..])
  }

  lemma ArrivedStep(cfg: Config, s: System, step: Step)
    requires Can(cfg, s, step)
    ensures Arrived(Do(cfg, s, step)) == Arrived(s) + if step.Refuse? || step.Admit? then {step.call} else {}
  {
    hide Next, Enabled;
    var t, more := Do(cfg, s, step), if step.Refuse? || step.Admit? then {step.call} else {};
    assert forall c :: c in Arrived(t) <==> c in Arrived(s) || c in more;
  }

  lemma {:induction false} ArrivedExact(cfg: Config, s: System, steps: seq<Step>, t: System)
    requires Reaches(cfg, s, steps, t)
    ensures Arrived(t) == Arrived(s) + Calls(steps)
    decreases |steps|
  {
    if steps != [] {
      ArrivedStep(cfg, s, steps[0]);
      hide Can, Do, Arrived;
      ArrivedExact(cfg, Do(cfg, s, steps[0]), steps[1..], t);
    }
  }

  predicate Quiet(s: System) {
    s.dispatcher.Idle? && forall c | c in s.threads :: s.threads[c].phase == Gone
  }

  /** At any time a call has at most one answer and one release, and no release before its answer. */
  lemma NeverTwice(cfg: Config, s: System, steps: seq<Step>, t: System, c: nat)
    requires Initial(cfg, s) && Reaches(cfg, s, steps, t)
    ensures Count(t.releases, c) <= Count(t.answers, c) <= 1
  {
    AlwaysInv(cfg, s, steps, t);
    hide Reaches, CountersExact, Limited, Attached;
  }

  /**
    Once things are quiet, every call that came in has been answered exactly once, has given its
    counters back exactly once if it got a thread and never otherwise, and all counters are zero.
   */
  lemma AnsweredOnceQuiet(cfg: Config, s: System, steps: seq<Step>, t: System)
    requires Initial(cfg, s) && Reaches(cfg, s, steps, t) && Quiet(t)
    ensures forall c | c in Calls(steps) :: Count(t.answers, c) == 1
    ensures forall c | c in Calls(steps) :: Count(t.releases, c) == if c in t.threads then 1 else 0
    ensures forall scope | scope in t.counters :: t.counters[scope] == 0
  {
    AlwaysInv(cfg, s, steps, t);
    ArrivedExact(cfg, s, steps, t);
    NoneArrived(cfg, s);
    QuietCounters(t);
    hide *;
    forall c | c in Calls(steps)
      ensures Count(t.answers, c) == 1 && Count(t.releases, c) == if c in t.threads then 1 else 0
    {
      QuietCall(t, c);
    }
  }

  lemma NoneArrived(cfg: Config, s: System)
    requires Initial(cfg, s)
    ensures Arrived(s) == {}
  {
  }

  lemma QuietCounters(t: System)
    requires CountersExact(t) && Quiet(t)
    ensures forall scope | scope in t.counters :: t.counters[scope] == 0
  {
    assert forall scope :: Live(t.threads, scope) == {};
  }

  lemma QuietCall(t: System, c: nat)
    requires Settled(t) && Quiet(t) && c in Arrived(t)
    ensures Count(t.answers, c) == 1 && Count(t.releases, c) == if c in t.threads then 1 else 0
  {
    hide Attached;
    if c in t.threads {
      assert SettledThread(t, c);
    }
  }

  lemma LiveThreadMoves(cfg: Config, s: System, c: nat)
    requires c in s.threads && SettledThread(s, c) && s.threads[c].phase != Gone
    ensures exists step :: Can(cfg, s, step) && !step.Refuse? && !step.Admit?
  {
    match s.threads[c].phase {
      case Launched => assert Can(cfg, s, Authorize(c));
      case Authorized => assert Can(cfg, s, Parse(c));
      case Parsed => assert Can(cfg, s, Spawn(c));
      case Replied => assert Can(cfg, s, Release(c));
      case Watching(w) =>
        assert Can(cfg, s, Deliver(c, ChildExited(0))) || Can(cfg, s, Deliver(c, Stdout(true, false, Eof)))
            || Can(cfg, s, Deliver(c, Stderr(true, false, Eof)));
    }
  }

  /** Until things are quiet, something besides a new call can always happen. */
  lemma NeverStuck(cfg: Config, s: System, steps: seq<Step>, t: System)
    requires Initial(cfg, s) && Reaches(cfg, s, steps, t) && !Quiet(t)
    ensures exists step :: Can(cfg, t, step) && !step.Refuse? && !step.Admit?
  {
    AlwaysInv(cfg, s, steps, t);
    SettledMoves(cfg, t);
  }

  lemma SettledMoves(cfg: Config, t: System)
    requires Settled(t) && !Quiet(t)
    ensures exists step :: Can(cfg, t, step) && !step.Refuse? && !step.Admit?
  {
    hide SettledThread, Undisturbed;
    if t.dispatcher.Admitted? {
      assert Can(cfg, t, Start);
    } else if t.dispatcher.Started? {
      assert Can(cfg, t, CountUp);
    } else {
      var c :| c in t.threads && t.threads[c].phase != Gone;
      hide Can;
      LiveThreadMoves(cfg, t, c);
    }
  }

  // ---------- the counters in memory ----------

  /** The counters of the methods table; every method is one critical section. */
  class Counters {
    var values: map<Scope, int>

    constructor (cfg: Config)
      requires All !in cfg.limits
      ensures Configured(cfg, values) && values.Keys == cfg.limits.Keys + {All}
      ensures forall scope | scope in values :: values[scope] == 0
    {
      values := map scope | scope in cfg.limits.Keys + {All} :: 0;
    }

    /** Asked while the dispatcher looks at a call: whether its interface or method has all the threads it may have. */
    method IsThreadLimitReached(cfg: Config, m: Method, ghost s: System) returns (reached: bool)
      requires Inv(cfg, s) && s.counters == values && !s.dispatcher.Started? && Known(cfg, m)
      ensures reached == LimitReached(cfg, s.counters, m)
      ensures reached <==>
              || |Live(s.threads, OfInterface(m.iface))| >= cfg.limits[OfInterface(m.iface)]
              || |Live(s.threads, OfMethod(m))| >= cfg.limits[OfMethod(m)]
    {
      hide CountersExact, Limited, Settled, Live;
      reached := false;
      if values[OfInterface(m.iface)] >= cfg.limits[OfInterface(m.iface)]
         || values[OfMethod(m)] >= cfg.limits[OfMethod(m)] {
        reached := true;
      }
      LimitMeans(cfg, s, m);
    }

    method CountUp(m: Method)
      requires OfInterface(m.iface) in values && OfMethod(m) in values && All in values
      modifies this
      ensures values == Adjusted(old(values), m, 1)
    {
      values := values[OfInterface(m.iface) := values[OfInterface(m.iface)] + 1];
      values := values[OfMethod(m) := values[OfMethod(m)] + 1];
      values := values[All := values[All] + 1];
    }

    method Release(m: Method)
      requires OfInterface(m.iface) in values && OfMethod(m) in values && All in values
      modifies this
      ensures values == Adjusted(old(values), m, -1)
    {
      values := values[OfInterface(m.iface) := values[OfInterface(m.iface)] - 1];
      values := values[OfMethod(m) := values[OfMethod(m)] - 1];
      values := values[All := values[All] - 1];
    }

    /** Whether a thread is live, not counting one that is started and not yet counted. */
    method IsModuleBusy(ghost cfg: Config, ghost s: System) returns (busy: bool)
      requires Inv(cfg, s) && s.counters == values
      ensures busy <==> |Live(s.threads, All)| > Pending(s.dispatcher, All)
      ensures !s.dispatcher.Started? ==> (busy <==> exists c :: c in s.threads && s.threads[c].phase != Gone)
    {
      hide CountersExact, Limited, Settled, Live;
      BusyMeans(cfg, s);
      busy := false;
      if values[All] > 0 {
        busy := true;
      }
    }
  }
}
