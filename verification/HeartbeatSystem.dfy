/**
  The life of one heartbeat, internal/browsersession/heartbeat.go: the background job under a supervisor
  that relaunches it, and one manager that starts, stops or expires it, all free to stop between any two
  steps while the clock runs on.
 */
module HeartbeatSystem {
  import opened Common

  type Time = nat

  datatype Config = Config(deadline: Time)

  /** One pass of Run's loop that began with a check reading `begun`, before the deadline. */
  datatype Cycle = Cycle(cfg: Config, begun: Time)

  /** The run context: time left as read at `measured`, counted from `armed`. */
  datatype Context = Context(measured: Time, armed: Time, cutoff: int)

  datatype Runner =
    | Off
    | Top
    | Loaded(cfg: Config)
    | Opened(c: Cycle)
    | Measured(c: Cycle, measured: Time)
    | Armed(c: Cycle, ctx: Context)
    | Attempting(c: Cycle, ctx: Context, started: Time, attempt: nat)
    | Probing(c: Cycle, ctx: Context, started: Time, attempt: nat)
    | Retrying(c: Cycle, ctx: Context, started: Time, attempt: nat)
    | Finished(c: Cycle, ctx: Context, started: Time)
    | Logging(c: Cycle, started: Time, finished: Time)
    | Waiting(cfg: Config)
    | Expiring(next: CleanUp)

  datatype File = PlistFile | StateFile | LogFile

  /** The steps of a clean-up. expire removes the files and then unloads the job; Stop unloads it first. */
  datatype CleanUp = Remove(file: File) | BootOut

  /** The steps of Start, and the removals that undo a refused bootstrap. */
  datatype SetUp = CreateLog | SaveState | WritePlist | Bootstrap | FirstOutcome | Undo(file: File)

  datatype Manager = Idle | MExpiring(next: CleanUp) | MStopping(next: CleanUp) | MStarting(cfg: Config, todo: SetUp)

  datatype Disk = Disk(plist: bool, state: Option<Config>, log: bool)

  /** A call of the probe. */
  datatype Probe = Probe(c: Cycle, ctx: Context, attempt: nat, at: Time)

  /** An outcome appended to the log. */
  datatype Entry = Entry(c: Cycle, started: Time, finished: Time)

  datatype World = World(
    now: Time, disk: Disk, loaded: bool, runner: Runner, manager: Manager,
    probes: seq<Probe>, entries: seq<Entry>)

  const ATTEMPTS: nat := 3

  /** What the surroundings decide at a step: did the call fail, did the probe succeed, may it be tried
      again, has the context been seen as done. */
  datatype Answer = Answer(fails: bool, ok: bool, retryable: bool, done: bool)

  datatype Event =
    | Tick(d: nat)
    | Launch
    | Crash
    | Run(a: Answer)
    | ManagerCrash
    | BeginInspect
    | BeginStop
    | BeginStart(cfg: Config)
    | Manage(a: Answer)

  function Removed(disk: Disk, file: File): Disk {
    match file
    case PlistFile => disk.(plist := false)
    case StateFile => disk.(state := None)
    case LogFile => disk.(log := false)
  }

  /** Every clean-up removes the files in this order. */
  function NextFile(file: File): File
    requires !file.LogFile?
  {
    if file.PlistFile? then StateFile else LogFile
  }

  /** launchctl bootout ends the job and whatever it is running. */
  function Bootout(w: World): World {
    w.(loaded := false, runner := Off)
  }

  function InExpire(file: File): CleanUp {
    if file.LogFile? then BootOut else Remove(NextFile(file))
  }

  /** expire, one step at a time. Any failure ends it. */
  function ExpireStep(w: World, step: CleanUp, a: Answer): World {
    if a.fails then w.(runner := Off)
    else if step.BootOut? then Bootout(w)
    else w.(disk := Removed(w.disk, step.file), runner := Expiring(InExpire(step.file)))
  }

  /** One step of Run. */
  function RunStep(w: World, a: Answer): World {
    match w.runner
    case Off => w
    case Top =>
      if a.fails || w.disk.state.None? then w.(runner := Off) else w.(runner := Loaded(w.disk.state.value))
    case Loaded(cfg) =>
      if w.now >= cfg.deadline then w.(runner := Expiring(Remove(PlistFile)))
      else w.(runner := Opened(Cycle(cfg, w.now)))
    case Opened(c) => w.(runner := Measured(c, w.now))
    case Measured(c, measured) =>
      w.(runner := Armed(c, Context(measured, w.now, w.now + c.cfg.deadline - measured)))
    case Armed(c, ctx) => w.(runner := Attempting(c, ctx, w.now, 1))
    case Attempting(c, ctx, started, attempt) =>
      w.(runner := Probing(c, ctx, started, attempt), probes := w.probes + [Probe(c, ctx, attempt, w.now)])
    case Probing(c, ctx, started, attempt) =>
      if !a.ok && attempt < ATTEMPTS && a.retryable then w.(runner := Retrying(c, ctx, started, attempt))
      else w.(runner := Finished(c, ctx, started))
    case Retrying(c, ctx, started, attempt) =>
      if a.done then w.(runner := Finished(c, ctx, started))
      else w.(runner := Attempting(c, ctx, started, attempt + 1))
    case Finished(c, ctx, started) =>
      if w.now >= c.cfg.deadline || (a.done && w.now >= ctx.cutoff) then w.(runner := Expiring(Remove(PlistFile)))
      else w.(runner := Logging(c, started, w.now))
    case Logging(c, started, finished) =>
      if a.fails then w.(runner := Off)
      else
        w.(disk := w.disk.(log := true), runner := Waiting(c.cfg), entries := w.entries + [Entry(c, started, finished)])
    case Waiting(cfg) =>
      if a.done then w.(runner := Off)
      else if w.now >= cfg.deadline && a.ok then w.(runner := Expiring(Remove(PlistFile)))
      else w.(runner := Top)
    case Expiring(step) => ExpireStep(w, step, a)
  }

  /** One step of the manager: Inspect's expiry, Stop or Start. */
  function ManageStep(w: World, a: Answer): World {
    match w.manager
    case Idle => w
    case MExpiring(step) =>
      if a.fails then w.(manager := Idle)
      else if step.BootOut? then Bootout(w).(manager := Idle)
      else w.(disk := Removed(w.disk, step.file), manager := MExpiring(InExpire(step.file)))
    case MStopping(step) =>
      if a.fails then w.(manager := Idle)
      else if step.BootOut? then Bootout(w).(manager := MStopping(Remove(PlistFile)))
      else
        w.(disk := Removed(w.disk, step.file),
           manager := if step.file.LogFile? then Idle else MStopping(Remove(NextFile(step.file))))
    case MStarting(cfg, step) => StartStep(w, cfg, step, a)
  }

  /** One step of Start. A refused bootstrap is undone; a first outcome that is not good stops the job. */
  function StartStep(w: World, cfg: Config, step: SetUp, a: Answer): World {
    match step
    case CreateLog =>
      if a.fails then w.(manager := Idle) else w.(disk := w.disk.(log := true), manager := MStarting(cfg, SaveState))
    case SaveState =>
      if a.fails then w.(manager := Idle)
      else w.(disk := w.disk.(state := Some(cfg)), manager := MStarting(cfg, WritePlist))
    case WritePlist =>
      if a.fails then w.(disk := w.disk.(state := None), manager := Idle)
      else w.(disk := w.disk.(plist := true), manager := MStarting(cfg, Bootstrap))
    case Bootstrap =>
      if a.fails || w.loaded then w.(manager := MStarting(cfg, Undo(PlistFile)))
      else w.(loaded := true, manager := MStarting(cfg, FirstOutcome))
    case FirstOutcome => w.(manager := if a.fails then MStopping(BootOut) else Idle)
    case Undo(file) =>
      w.(disk := Removed(w.disk, file), manager := if file.LogFile? then Idle else MStarting(cfg, Undo(NextFile(file))))
  }

  /** An event that is not possible changes nothing. */
  function Next(w: World, e: Event): World {
    match e
    case Tick(d) => w.(now := w.now + d)
    case Launch => if w.loaded && w.runner == Off then w.(runner := Top) else w
    case Crash => w.(runner := Off)
    case Run(a) => RunStep(w, a)
    case ManagerCrash => w.(manager := Idle)
    case BeginInspect =>
      if w.manager == Idle && w.disk.state.Some? && w.now >= w.disk.state.value.deadline
      then w.(manager := MExpiring(Remove(PlistFile))) else w
    case BeginStop => if w.manager == Idle then w.(manager := MStopping(BootOut)) else w
    case BeginStart(cfg) =>
      if w.manager == Idle && w.disk.state.None? && !w.disk.plist then w.(manager := MStarting(cfg, CreateLog)) else w
    case Manage(a) => ManageStep(w, a)
  }

  function Runs(w: World, events: seq<Event>): World {
    if events == [] then w else Next(Runs(w, events[..|events| - 1]), events[|events| - 1])
  }

  // ---- Every probe and every logged outcome keeps its deadline ----

  predicate CycleInTime(c: Cycle) {
    c.begun < c.cfg.deadline
  }

  predicate ContextOf(ctx: Context, c: Cycle) {
    c.begun <= ctx.measured <= ctx.armed && ctx.cutoff == c.cfg.deadline + (ctx.armed - ctx.measured)
  }

  predicate ProbeInTime(p: Probe) {
    CycleInTime(p.c) && ContextOf(p.ctx, p.c) && p.ctx.armed <= p.at && 1 <= p.attempt <= ATTEMPTS
  }

  predicate EntryInTime(e: Entry) {
    CycleInTime(e.c) && e.c.begun <= e.started <= e.finished < e.c.cfg.deadline
  }

  predicate RunnerInTime(r: Runner, now: Time) {
    match r
    case Opened(c) => CycleInTime(c) && c.begun <= now
    case Measured(c, measured) => CycleInTime(c) && c.begun <= measured <= now
    case Armed(c, ctx) => CycleInTime(c) && ContextOf(ctx, c) && ctx.armed <= now
    case Attempting(c, ctx, started, attempt) => Underway(c, ctx, started, now) && 1 <= attempt <= ATTEMPTS
    case Probing(c, ctx, started, attempt) => Underway(c, ctx, started, now) && 1 <= attempt <= ATTEMPTS
    case Retrying(c, ctx, started, attempt) => Underway(c, ctx, started, now) && 1 <= attempt < ATTEMPTS
    case Finished(c, ctx, started) => Underway(c, ctx, started, now)
    case Logging(c, started, finished) => EntryInTime(Entry(c, started, finished)) && finished <= now
    case _ => true
  }

  predicate Underway(c: Cycle, ctx: Context, started: Time, now: Time) {
    CycleInTime(c) && ContextOf(ctx, c) && ctx.armed <= started <= now
  }

  ghost predicate InTime(w: World) {
    && RunnerInTime(w.runner, w.now)
    && (forall p | p in w.probes :: ProbeInTime(p))
    && (forall e | e in w.entries :: EntryInTime(e))
  }

  ghost predicate Fresh(w: World) {
    w.runner == Off && w.manager == Idle && w.probes == [] && w.entries == []
  }

  predicate InProbing(r: Runner) {
    r.Attempting? || r.Probing? || r.Retrying? || r.Finished?
  }

  lemma RunStepEarly(w: World, a: Answer)
    requires RunnerInTime(w.runner, w.now) && !InProbing(w.runner)
    ensures RunnerInTime(RunStep(w, a).runner, w.now)
  {
  }

  lemma RunStepLate(w: World, a: Answer)
    requires RunnerInTime(w.runner, w.now) && InProbing(w.runner)
    ensures RunnerInTime(RunStep(w, a).runner, w.now)
  {
  }

  lemma RunStepRunner(w: World, a: Answer)
    requires RunnerInTime(w.runner, w.now)
    ensures RunnerInTime(RunStep(w, a).runner, RunStep(w, a).now)
  {
    assert RunStep(w, a).now == w.now;
    if InProbing(w.runner) {
      RunStepLate(w, a);
    } else {
      RunStepEarly(w, a);
    }
  }

  lemma RunStepProbes(w: World, a: Answer)
    requires RunnerInTime(w.runner, w.now)
    ensures var more := RunStep(w, a).probes;
      if w.runner.Attempting? then |more| == |w.probes| + 1 && more[..|w.probes|] == w.probes
        && ProbeInTime(more[|w.probes|])
      else more == w.probes
  {
  }

  lemma RunStepEntries(w: World, a: Answer)
    requires RunnerInTime(w.runner, w.now)
    ensures var more := RunStep(w, a).entries;
      if w.runner.Logging? && !a.fails then |more| == |w.entries| + 1 && more[..|w.entries|] == w.entries
        && EntryInTime(more[|w.entries|])
      else more == w.entries
  {
  }

  lemma RunStepInTime(w: World, a: Answer)
    requires InTime(w)
    ensures InTime(RunStep(w, a))
  {
    RunStepRunner(w, a);
    RunStepProbes(w, a);
    RunStepEntries(w, a);
  }

  lemma TimePasses(r: Runner, now: Time, later: Time)
    requires RunnerInTime(r, now) && now <= later
    ensures RunnerInTime(r, later)
  {
  }

  lemma ManagerTouchesNoRecord(w: World, a: Answer)
    ensures var v := ManageStep(w, a);
      v.probes == w.probes && v.entries == w.entries && v.now == w.now && (v.runner == w.runner || v.runner == Off)
  {
  }

  lemma NextInTime(w: World, e: Event)
    requires InTime(w)
    ensures InTime(Next(w, e))
  {
    match e
    case Run(a) => RunStepInTime(w, a);
    case Manage(a) => ManagerTouchesNoRecord(w, a);
    case Tick(d) => TimePasses(w.runner, w.now, w.now + d);
    case _ =>
  }

  /** Whatever crashes, relaunches, stops and starts happen: each probe belongs to a cycle begun before
      its deadline, and each logged outcome was both started and finished before it. */
  lemma {:induction false} RunsInTime(w: World, events: seq<Event>)
    requires Fresh(w)
    ensures InTime(Runs(w, events))
  {
    if events != [] {
      RunsInTime(w, events[..|events| - 1]);
      NextInTime(Runs(w, events[..|events| - 1]), events[|events| - 1]);
    }
  }

  const PASS := Answer(false, true, true, false)

  const FAIL := Answer(false, false, true, false)

  predicate Live(p: Probe) {
    p.at < p.ctx.cutoff
  }

  /** A probe called under a live context starts before the deadline, but for the time that passed
      between reading the time left and arming the context with it. */
  lemma LiveProbesStartInTime(w: World, events: seq<Event>, p: Probe)
    requires Fresh(w) && p in Runs(w, events).probes && Live(p)
    ensures p.at < p.c.cfg.deadline + (p.ctx.armed - p.ctx.measured)
    ensures p.ctx.armed == p.ctx.measured ==> p.at < p.c.cfg.deadline
  {
    RunsInTime(w, events);
  }

  /** The strict reading fails: a clock that passes the deadline right after the opening check lets the
      probe start late, under a context still armed. */
  lemma ProbeCanStartLate(w: World) returns (events: seq<Event>)
    requires Fresh(w) && w.loaded && w.disk.state == Some(Config(w.now + 1))
    ensures var p := Runs(w, events).probes;
      |p| == 1 && Live(p[0]) && p[0].at > p[0].c.cfg.deadline
  {
    var step := Run(PASS);
    var a := [Launch, step, step, step];
    events := a + [Tick(2), step, step, step];
    var w1 := Next(w, Launch);
    var w2 := Next(w1, step);
    var w3 := Next(w2, step);
    var w4 := Next(w3, step);
    RunsFour(w, Launch, step, step, step);
    RunsAppend(w, a, [Tick(2), step, step, step]);
    RunsFour(w4, Tick(2), step, step, step);
    assert w4.runner == Measured(Cycle(Config(w.now + 1), w.now), w.now) && w4.now == w.now && w4.probes == [];
  }

  lemma RunsFour(w: World, a: Event, b: Event, c: Event, d: Event)
    ensures Runs(w, [a, b, c, d]) == Next(Next(Next(Next(w, a), b), c), d)
  {
    assert [a, b, c, d][..3] == [a, b, c] && [a, b, c][..2] == [a, b] && [a, b][..1] == [a] && [a][..0] == [];
    assert Runs(w, []) == w;
    assert Runs(w, [a]) == Next(w, a);
    assert Runs(w, [a, b]) == Next(Next(w, a), b);
  }

  lemma {:induction false} RunsAppend(w: World, a: seq<Event>, b: seq<Event>)
    ensures Runs(w, a + b) == Runs(Runs(w, a), b)
  {
    if b == [] {
      assert a + b == a;
    } else {
      var front := b[..|b| - 1];
      assert (a + b)[..|a + b| - 1] == a + front;
      RunsAppend(w, a, front);
    }
  }

  // ---- How late a probe can start ----

  predicate OnTheWay(r: Runner) {
    r.Opened? || r.Measured? || r.Armed? || r.Attempting?
  }

  /** The time that has passed on the way from a check, be it the opening one or the look at the context
      that ends a retry wait, to the call of the probe behind it. */
  function LagAfter(w: World, lag: nat, e: Event): nat {
    if OnTheWay(w.runner) && OnTheWay(Next(w, e).runner) then lag + (if e.Tick? then e.d else 0) else 0
  }

  function Lag(w: World, events: seq<Event>): nat {
    if events == [] then 0
    else LagAfter(Runs(w, events[..|events| - 1]), Lag(w, events[..|events| - 1]), events[|events| - 1])
  }

  /** A retry wait whose context is over ends by that context and not by its timer. */
  predicate WaitEnds(w: World, e: Event) {
    e.Run? && w.runner.Retrying? && w.now >= w.runner.ctx.cutoff ==> e.a.done
  }

  /** At most delta passes between a check and the call behind it; if strict, a context that is over
      always ends the wait. */
  predicate Disciplined(delta: nat, strict: bool, w: World, events: seq<Event>) {
    events == [] || (
      && Disciplined(delta, strict, w, events[..|events| - 1])
      && Lag(w, events) <= delta
      && (strict ==> WaitEnds(Runs(w, events[..|events| - 1]), events[|events| - 1])))
  }

  predicate RunnerTimely(r: Runner, now: Time, lag: nat, delta: nat) {
    match r
    case Opened(c) => now == c.begun + lag && CycleInTime(c)
    case Measured(c, measured) => now == c.begun + lag && CycleInTime(c) && c.begun <= measured <= now
    case Armed(c, ctx) => now == c.begun + lag && CycleInTime(c) && ctx.cutoff <= c.cfg.deadline + delta
    case Attempting(c, ctx, _, attempt) =>
      && ctx.cutoff <= c.cfg.deadline + delta && attempt >= 1
      && now < (if attempt == 1 then c.cfg.deadline else ctx.cutoff) + lag
    case Probing(c, ctx, _, attempt) => ctx.cutoff <= c.cfg.deadline + delta && attempt >= 1
    case Retrying(c, ctx, _, attempt) => ctx.cutoff <= c.cfg.deadline + delta && attempt >= 1
    case _ => true
  }

  predicate ProbeWithin(p: Probe, delta: nat) {
    p.at < p.c.cfg.deadline + (if p.attempt == 1 then delta else delta + delta)
  }

  ghost predicate Timely(w: World, lag: nat, delta: nat) {
    RunnerTimely(w.runner, w.now, lag, delta) && forall p | p in w.probes :: ProbeWithin(p, delta)
  }

  lemma TimelyOnTheWay(w: World, lag: nat, delta: nat, a: Answer)
    requires RunnerTimely(w.runner, w.now, lag, delta) && LagAfter(w, lag, Run(a)) <= delta && OnTheWay(w.runner)
    ensures RunnerTimely(RunStep(w, a).runner, w.now, LagAfter(w, lag, Run(a)), delta)
  {
  }

  lemma TimelyElsewhere(w: World, lag: nat, delta: nat, a: Answer)
    requires RunnerTimely(w.runner, w.now, lag, delta) && !OnTheWay(w.runner) && WaitEnds(w, Run(a))
    ensures RunnerTimely(RunStep(w, a).runner, w.now, LagAfter(w, lag, Run(a)), delta)
  {
  }

  lemma TimelyRecords(w: World, lag: nat, delta: nat, a: Answer)
    requires Timely(w, lag, delta) && lag <= delta
    ensures forall p | p in RunStep(w, a).probes :: ProbeWithin(p, delta)
  {
  }

  lemma TimelyRun(w: World, lag: nat, delta: nat, a: Answer)
    requires Timely(w, lag, delta) && lag <= delta && LagAfter(w, lag, Run(a)) <= delta && WaitEnds(w, Run(a))
    ensures Timely(RunStep(w, a), LagAfter(w, lag, Run(a)), delta)
  {
    if OnTheWay(w.runner) {
      TimelyOnTheWay(w, lag, delta, a);
    } else {
      TimelyElsewhere(w, lag, delta, a);
    }
    TimelyRecords(w, lag, delta, a);
    assert RunStep(w, a).now == w.now;
  }

  lemma TimelyTick(w: World, lag: nat, delta: nat, d: nat)
    requires Timely(w, lag, delta) && LagAfter(w, lag, Tick(d)) <= delta
    ensures Timely(w.(now := w.now + d), LagAfter(w, lag, Tick(d)), delta)
  {
  }

  /** What leaves clock, records and runner alone, or the runner off or at its top, keeps the bounds. */
  lemma TimelyAside(w: World, v: World, lag: nat, after: nat, delta: nat)
    requires Timely(w, lag, delta) && v.now == w.now && v.probes == w.probes
    requires (v.runner == w.runner && after == (if OnTheWay(w.runner) then lag else 0)) || v.runner == Off
      || v.runner == Top
    ensures Timely(v, after, delta)
  {
  }

  lemma TimelyNext(w: World, lag: nat, delta: nat, e: Event)
    requires Timely(w, lag, delta) && lag <= delta && LagAfter(w, lag, e) <= delta && WaitEnds(w, e)
    ensures Timely(Next(w, e), LagAfter(w, lag, e), delta)
  {
    match e
    case Run(a) => TimelyRun(w, lag, delta, a);
    case Tick(d) => TimelyTick(w, lag, delta, d);
    case Manage(a) =>
      ManagerTouchesNoRecord(w, a);
      TimelyAside(w, ManageStep(w, a), lag, LagAfter(w, lag, e), delta);
    case _ => TimelyAside(w, Next(w, e), lag, LagAfter(w, lag, e), delta);
  }

  /** If at most delta passes between a check and its call and contexts end waits, a first attempt starts
      before the deadline plus delta, and a later one before the deadline plus twice that. */
  lemma {:induction false} DisciplinedRunsAreTimely(delta: nat, w: World, events: seq<Event>)
    requires Fresh(w) && Disciplined(delta, true, w, events)
    ensures Lag(w, events) <= delta && Timely(Runs(w, events), Lag(w, events), delta)
  {
    if events != [] {
      var front := events[..|events| - 1];
      DisciplinedRunsAreTimely(delta, w, front);
      TimelyNext(Runs(w, front), Lag(w, front), delta, events[|events| - 1]);
    }
  }

  ghost predicate AllProbesStartInTime(w: World) {
    forall p | p in w.probes :: p.at < p.c.cfg.deadline
  }

  /** Every run of this discipline, from any fresh world, starts every probe before its deadline. */
  ghost predicate AlwaysInTime(delta: nat, strict: bool) {
    forall w, events | Fresh(w) && Disciplined(delta, strict, w, events) :: AllProbesStartInTime(Runs(w, events))
  }

  // ---- Runs written out ----

  /** This run from w keeps the discipline and ends in u. */
  predicate Reaches(delta: nat, strict: bool, w: World, events: seq<Event>, u: World, lag: nat) {
    Disciplined(delta, strict, w, events) && Runs(w, events) == u && Lag(w, events) == lag
  }

  lemma ReachOne(delta: nat, strict: bool, w: World, events: seq<Event>, u: World, lag: nat, e: Event)
    requires Reaches(delta, strict, w, events, u, lag)
    requires LagAfter(u, lag, e) <= delta && (strict ==> WaitEnds(u, e))
    ensures Reaches(delta, strict, w, events + [e], Next(u, e), LagAfter(u, lag, e))
  {
    assert (events + [e])[..|events + [e]| - 1] == events;
  }

  const CYCLE := Cycle(Config(1), 0)

  /** A loaded job at rest whose deadline is one unit of time away. */
  const START_WORLD := World(0, Disk(true, Some(Config(1)), true), true, Off, Idle, [], [])

  lemma ReachMeasured(delta: nat, strict: bool) returns (events: seq<Event>)
    ensures Reaches(delta, strict, START_WORLD, events, START_WORLD.(runner := Measured(CYCLE, 0)), 0)
  {
    var w := START_WORLD;
    ReachOne(delta, strict, w, [], w, 0, Launch);
    ReachOne(delta, strict, w, [] + [Launch], w.(runner := Top), 0, Run(PASS));
    events := [] + [Launch] + [Run(PASS)];
    ReachOne(delta, strict, w, events, w.(runner := Loaded(Config(1))), 0, Run(PASS));
    events := events + [Run(PASS)];
    ReachOne(delta, strict, w, events, w.(runner := Opened(CYCLE)), 0, Run(PASS));
    events := events + [Run(PASS)];
  }

  /** Here d passes between reading the time left and arming the context with it. */
  function AtFirst(d: nat, r: Runner): World {
    START_WORLD.(now := d, runner := r)
  }

  function SlowContext(d: nat): Context {
    Context(0, d, 1 + d)
  }

  function FirstProbe(d: nat): Probe {
    Probe(CYCLE, SlowContext(d), 1, d)
  }

  lemma ReachFirstAttempt(delta: nat, strict: bool) returns (events: seq<Event>)
    ensures Reaches(delta, strict, START_WORLD, events,
      AtFirst(delta, Attempting(CYCLE, SlowContext(delta), delta, 1)), delta)
  {
    events := ReachMeasured(delta, strict);
    ReachOne(delta, strict, START_WORLD, events, START_WORLD.(runner := Measured(CYCLE, 0)), 0, Tick(delta));
    events := events + [Tick(delta)];
    ReachOne(delta, strict, START_WORLD, events, AtFirst(delta, Measured(CYCLE, 0)), delta, Run(PASS));
    events := events + [Run(PASS)];
    ReachOne(delta, strict, START_WORLD, events, AtFirst(delta, Armed(CYCLE, SlowContext(delta))), delta, Run(PASS));
    events := events + [Run(PASS)];
  }

  lemma ReachFirstProbe(delta: nat, strict: bool) returns (events: seq<Event>)
    ensures Reaches(delta, strict, START_WORLD, events,
      AtFirst(delta, Probing(CYCLE, SlowContext(delta), delta, 1)).(probes := [FirstProbe(delta)]), 0)
  {
    events := ReachFirstAttempt(delta, strict);
    ReachOne(delta, strict, START_WORLD, events, AtFirst(delta, Attempting(CYCLE, SlowContext(delta), delta, 1)),
      delta, Run(PASS));
    events := events + [Run(PASS)];
  }

  lemma ReachRetry(delta: nat, strict: bool) returns (events: seq<Event>)
    ensures Reaches(delta, strict, START_WORLD, events,
      AtFirst(delta, Retrying(CYCLE, SlowContext(delta), delta, 1)).(probes := [FirstProbe(delta)]), 0)
  {
    events := ReachFirstProbe(delta, strict);
    ReachOne(delta, strict, START_WORLD, events,
      AtFirst(delta, Probing(CYCLE, SlowContext(delta), delta, 1)).(probes := [FirstProbe(delta)]), 0, Run(FAIL));
    events := events + [Run(FAIL)];
  }

  /** Both bounds are met: this run's first attempt starts at the deadline plus delta less one, its second
      at the deadline plus twice delta less one. */
  lemma BoundsAreMet(delta: nat) returns (events: seq<Event>)
    ensures Disciplined(delta, true, START_WORLD, events)
    ensures var p := Runs(START_WORLD, events).probes;
      && |p| == 2 && p[0].attempt == 1 && p[1].attempt == 2
      && p[0].at == p[0].c.cfg.deadline + delta - 1 && p[1].at == p[1].c.cfg.deadline + delta + delta - 1
  {
    var ctx, w, first := SlowContext(delta), START_WORLD, [FirstProbe(delta)];
    events := ReachRetry(delta, true);
    ReachOne(delta, true, w, events, AtFirst(delta, Retrying(CYCLE, ctx, delta, 1)).(probes := first), 0, Run(PASS));
    events := events + [Run(PASS)];
    ReachOne(delta, true, w, events, AtFirst(delta, Attempting(CYCLE, ctx, delta, 2)).(probes := first), 0,
      Tick(delta));
    events := events + [Tick(delta)];
    ReachOne(delta, true, w, events,
      AtFirst(delta + delta, Attempting(CYCLE, ctx, delta, 2)).(probes := first), delta, Run(PASS));
    events := events + [Run(PASS)];
  }

  /** Without the strictness the clock never has to move on the way: it passes the deadline during a retry
      wait, whose timer then wins over the ended context. */
  lemma TimerCanWin(delta: nat) returns (events: seq<Event>)
    ensures Disciplined(0, false, START_WORLD, events)
    ensures var p := Runs(START_WORLD, events).probes;
      |p| == 2 && p[1].at == p[1].c.cfg.deadline + delta
  {
    var ctx, w, first := SlowContext(0), START_WORLD, [FirstProbe(0)];
    events := ReachRetry(0, false);
    ReachOne(0, false, w, events, AtFirst(0, Retrying(CYCLE, ctx, 0, 1)).(probes := first), 0, Tick(1 + delta));
    events := events + [Tick(1 + delta)];
    ReachOne(0, false, w, events, AtFirst(1 + delta, Retrying(CYCLE, ctx, 0, 1)).(probes := first), 0, Run(PASS));
    events := events + [Run(PASS)];
    ReachOne(0, false, w, events, AtFirst(1 + delta, Attempting(CYCLE, ctx, 0, 2)).(probes := first), 0, Run(PASS));
    events := events + [Run(PASS)];
  }

  lemma {:induction false} LooserRunsToo(delta: nat, wider: nat, strict: bool, w: World, events: seq<Event>)
    requires Disciplined(delta, strict, w, events) && delta <= wider
    ensures Disciplined(wider, strict, w, events)
  {
    if events != [] {
      LooserRunsToo(delta, wider, strict, w, events[..|events| - 1]);
    }
  }

  lemma LateProbeBreaks(delta: nat, strict: bool, events: seq<Event>, i: nat)
    requires Disciplined(delta, strict, START_WORLD, events)
    requires var p := Runs(START_WORLD, events).probes; i < |p| && p[i].at >= p[i].c.cfg.deadline
    ensures !AlwaysInTime(delta, strict)
  {
    assert Fresh(START_WORLD) && Runs(START_WORLD, events).probes[i] in Runs(START_WORLD, events).probes;
    assert !AllProbesStartInTime(Runs(START_WORLD, events));
  }

  /** Every probe of every run starts before its deadline if and only if no time passes between a check
      and its call and an ended context always ends the wait: either alone is not enough. */
  lemma StartsInTimeExactly(delta: nat, strict: bool)
    ensures AlwaysInTime(delta, strict) <==> delta == 0 && strict
  {
    if !strict {
      var events := TimerCanWin(0);
      LooserRunsToo(0, delta, false, START_WORLD, events);
      LateProbeBreaks(delta, false, events, 1);
    } else if delta > 0 {
      var events := BoundsAreMet(delta);
      LateProbeBreaks(delta, true, events, 0);
    } else {
      forall w, events | Fresh(w) && Disciplined(0, true, w, events) ensures AllProbesStartInTime(Runs(w, events)) {
        DisciplinedRunsAreTimely(0, w, events);
      }
    }
  }

  // ---- After expiry ----

  function CycleOf(r: Runner): Option<Cycle> {
    match r
    case Opened(c) => Some(c)
    case Measured(c, _) => Some(c)
    case Armed(c, _) => Some(c)
    case Attempting(c, _, _, _) => Some(c)
    case Probing(c, _, _, _) => Some(c)
    case Retrying(c, _, _, _) => Some(c)
    case Finished(c, _, _) => Some(c)
    case Logging(c, _, _) => Some(c)
    case _ => None
  }

  /** No further cycle can open: the state file is gone, or its deadline has passed. */
  predicate Closed(w: World) {
    && (w.disk.state.Some? ==> w.now >= w.disk.state.value.deadline)
    && (w.runner.Loaded? ==> w.now >= w.runner.cfg.deadline)
    && !w.manager.MStarting?
  }

  predicate NoStart(events: seq<Event>) {
    forall e | e in events :: !e.BeginStart?
  }

  /** What was probed and logged since u belongs to the one cycle that was under way in u. */
  ghost predicate OnlyTheOldCycle(u: World, w: World) {
    && OldProbes(u, w)
    && (CycleOf(w.runner).Some? ==> CycleOf(w.runner) == CycleOf(u.runner))
    && AtMostOneEntry(u, w)
  }

  ghost predicate OldProbes(u: World, w: World) {
    && u.probes <= w.probes
    && (w.probes == u.probes || CycleOf(u.runner).Some?)
    && forall i | |u.probes| <= i < |w.probes| :: CycleOf(u.runner) == Some(w.probes[i].c)
  }

  ghost predicate AtMostOneEntry(u: World, w: World) {
    || w.entries == u.entries
    || (CycleOf(u.runner).Some? && CycleOf(w.runner).None? && |w.entries| == |u.entries| + 1 && u.entries <= w.entries)
  }

  lemma ClosedRunStepCycle(w: World, a: Answer)
    requires Closed(w)
    ensures Closed(RunStep(w, a))
    ensures CycleOf(RunStep(w, a).runner).Some? ==> CycleOf(RunStep(w, a).runner) == CycleOf(w.runner)
  {
  }

  lemma ClosedRunStepProbes(u: World, w: World, a: Answer)
    requires OldProbes(u, w) && (CycleOf(w.runner).Some? ==> CycleOf(w.runner) == CycleOf(u.runner))
    ensures OldProbes(u, RunStep(w, a))
  {
  }

  lemma ClosedRunStepEntries(u: World, w: World, a: Answer)
    requires Closed(w) && AtMostOneEntry(u, w) && (CycleOf(w.runner).Some? ==> CycleOf(w.runner) == CycleOf(u.runner))
    ensures AtMostOneEntry(u, RunStep(w, a))
  {
  }

  lemma ClosedRunStep(u: World, w: World, a: Answer)
    requires Closed(w) && OnlyTheOldCycle(u, w)
    ensures Closed(RunStep(w, a)) && OnlyTheOldCycle(u, RunStep(w, a))
  {
    ClosedRunStepCycle(w, a);
    ClosedRunStepProbes(u, w, a);
    ClosedRunStepEntries(u, w, a);
  }

  lemma ClosedManageStep(u: World, w: World, a: Answer)
    requires Closed(w) && OnlyTheOldCycle(u, w)
    ensures Closed(ManageStep(w, a)) && OnlyTheOldCycle(u, ManageStep(w, a))
  {
  }

  lemma ClosedStays(u: World, w: World, e: Event)
    requires Closed(w) && OnlyTheOldCycle(u, w) && !e.BeginStart?
    ensures Closed(Next(w, e)) && OnlyTheOldCycle(u, Next(w, e))
  {
    if e.Run? {
      ClosedRunStep(u, w, e.a);
    } else if e.Manage? {
      ClosedManageStep(u, w, e.a);
    }
  }

  /** Once the state file is gone or its deadline has passed, and until a new start, no relaunch probes
      or logs: only the cycle already under way may finish, with at most one more log entry. */
  lemma {:induction false} AfterClosingOnlyTheOldCycle(w: World, events: seq<Event>)
    requires Closed(w) && NoStart(events)
    ensures Closed(Runs(w, events)) && OnlyTheOldCycle(w, Runs(w, events))
  {
    if events != [] {
      AfterClosingOnlyTheOldCycle(w, events[..|events| - 1]);
      ClosedStays(w, Runs(w, events[..|events| - 1]), events[|events| - 1]);
    }
  }

  /** A job that is not in the middle of a cycle then, is silent for good. */
  lemma RelaunchesAreSilent(w: World, events: seq<Event>)
    requires Closed(w) && NoStart(events) && CycleOf(w.runner).None?
    ensures Runs(w, events).probes == w.probes && Runs(w, events).entries == w.entries
  {
    AfterClosingOnlyTheOldCycle(w, events);
    NothingNew(w, Runs(w, events));
  }

  lemma NothingNew(u: World, w: World)
    requires OnlyTheOldCycle(u, w) && CycleOf(u.runner).None?
    ensures w.probes == u.probes && w.entries == u.entries
  {
  }

  // ---- Crashes inside expiry ----

  predicate Clean(w: World) {
    !w.disk.plist && w.disk.state.None? && !w.disk.log && !w.loaded && w.runner == Off
  }

  /** No manager stops the job or starts it anew. */
  predicate NoStopOrStart(events: seq<Event>) {
    forall e | e in events :: !e.BeginStop? && !e.BeginStart?
  }

  /** A crash before the state file is removed is made good by a relaunch behind the deadline. */
  lemma CrashBeforeStateRemoval(w: World) returns (events: seq<Event>)
    requires w.loaded && w.runner == Off && w.manager == Idle && w.disk.state.Some?
    ensures NoStopOrStart(events) && Clean(Runs(w, events))
  {
    var step, late := Run(PASS), Tick(w.disk.state.value.deadline);
    events := [late, Launch, step, step] + [step, step, step, step];
    RunsAppend(w, [late, Launch, step, step], [step, step, step, step]);
    RunsFour(w, late, Launch, step, step);
    var again := Runs(w, [late, Launch, step, step]);
    assert again.runner == Expiring(Remove(PlistFile)) && again.loaded;
    RunsFour(again, step, step, step, step);
  }

  /** A crash after it leaves the job loaded: every relaunch exits at once, and no relaunch unloads it. */
  predicate Lingers(w: World) {
    w.loaded && w.disk.state.None? && (w.runner == Off || w.runner == Top) && w.manager == Idle
  }

  lemma {:induction false} CrashAfterStateRemovalLingers(w: World, events: seq<Event>)
    requires Lingers(w) && NoStopOrStart(events)
    ensures Lingers(Runs(w, events)) && Runs(w, events).probes == w.probes && Runs(w, events).entries == w.entries
  {
    if events != [] {
      CrashAfterStateRemovalLingers(w, events[..|events| - 1]);
      assert events[|events| - 1] in events;
    }
  }

  /** Whatever stage of expiry the crash hits: relaunches can still clean up, without a manager that stops
      or starts the job, if and only if the state file was there at the crash. */
  lemma ExpiryCrashIsMadeGoodExactly(w: World)
    requires w.loaded && w.runner.Expiring? && w.manager == Idle
    ensures (exists events :: NoStopOrStart(events) && Clean(Runs(Next(w, Crash), events))) <==> w.disk.state.Some?
  {
    var crashed := Next(w, Crash);
    if w.disk.state.Some? {
      var events := CrashBeforeStateRemoval(crashed);
    } else {
      forall events | NoStopOrStart(events) ensures !Clean(Runs(crashed, events)) {
        CrashAfterStateRemovalLingers(crashed, events);
      }
    }
  }

  /** Such a crash can happen in the life of any loaded job. */
  lemma ExpiryCrashCanLinger(w: World) returns (events: seq<Event>)
    requires Fresh(w) && w.loaded && w.disk.state.Some?
    ensures NoStopOrStart(events) && Lingers(Runs(w, events))
  {
    var step, late := Run(PASS), Tick(w.disk.state.value.deadline);
    events := [late, Launch, step, step] + [step, step, Crash, Tick(0)];
    RunsAppend(w, [late, Launch, step, step], [step, step, Crash, Tick(0)]);
    RunsFour(w, late, Launch, step, step);
    var expiring := Runs(w, [late, Launch, step, step]);
    assert expiring.runner == Expiring(Remove(PlistFile)) && expiring.loaded;
    RunsFour(expiring, step, step, Crash, Tick(0));
  }

  /** Stop cleans up from any point at which anything was left. */
  lemma StopCleans(w: World)
    requires w.manager == Idle
    ensures var go := Manage(PASS);
      Clean(Next(Runs(w, [BeginStop, go, go, go]), go))
  {
    var go := Manage(PASS);
    RunsFour(w, BeginStop, go, go, go);
    var w1 := Next(w, BeginStop);
    var w2 := Next(w1, go);
    assert w2 == Bootout(w).(manager := MStopping(Remove(PlistFile)));
    var w3 := Next(w2, go);
    assert w3 == w2.(disk := w2.disk.(plist := false), manager := MStopping(Remove(StateFile)));
    var w4 := Next(w3, go);
    assert w4 == w3.(disk := w3.disk.(state := None), manager := MStopping(Remove(LogFile)));
  }

  /** The expiry that Inspect performs can race with a cycle about to log, which then creates the log
      anew; no expiry looks at it again, because its state file is gone. */
  lemma ExpiryCanLeaveALog(w: World) returns (events: seq<Event>)
    requires Fresh(w) && w.loaded && w.disk.state.Some? && w.now < w.disk.state.value.deadline
    ensures var v := Runs(w, events);
      v.disk.log && !v.disk.plist && v.disk.state.None? && !v.loaded && v.manager == Idle && NoStart(events)
  {
    var cycle := ReachLogging(w);
    var race := LoggingRacesWithExpiry(Runs(w, cycle));
    events := cycle + race;
    RunsAppend(w, cycle, race);
  }

  lemma ReachArming(w: World) returns (events: seq<Event>)
    requires Fresh(w) && w.loaded && w.disk.state.Some? && w.now < w.disk.state.value.deadline
    ensures NoStart(events)
    ensures Runs(w, events) == w.(runner := Measured(Cycle(w.disk.state.value, w.now), w.now))
  {
    var step := Run(PASS);
    events := [Launch, step, step, step];
    RunsFour(w, Launch, step, step, step);
  }

  lemma ReachFinished(w: World) returns (events: seq<Event>)
    requires w.runner.Measured? && w.now < w.runner.c.cfg.deadline
    ensures NoStart(events)
    ensures var v := Runs(w, events);
      v.runner.Finished? && v.runner.c == w.runner.c && v.now == w.now && v.disk == w.disk && v.manager == w.manager
  {
    var step := Run(PASS);
    events := [step, step, step, step];
    RunsFour(w, step, step, step, step);
  }

  lemma ReachLogging(w: World) returns (events: seq<Event>)
    requires Fresh(w) && w.loaded && w.disk.state.Some? && w.now < w.disk.state.value.deadline
    ensures NoStart(events)
    ensures var v := Runs(w, events);
      v.manager == Idle && v.disk == w.disk && v.runner.Logging? && v.disk.state == Some(v.runner.c.cfg)
  {
    var first := ReachArming(w);
    var second := ReachFinished(Runs(w, first));
    RunsAppend(w, first, second);
    RunsAppend(w, first + second, [Run(PASS)]);
    events := first + second + [Run(PASS)];
    assert [Run(PASS)][..0] == [];
    assert Runs(Runs(w, first + second), []) == Runs(w, first + second);
  }

  lemma LoggingRacesWithExpiry(w: World) returns (events: seq<Event>)
    requires w.manager == Idle && w.runner.Logging? && w.disk.state == Some(w.runner.c.cfg)
    ensures var v := Runs(w, events);
      v.disk.log && !v.disk.plist && v.disk.state.None? && !v.loaded && v.manager == Idle && NoStart(events)
  {
    var late, go := Tick(w.disk.state.value.deadline), Manage(PASS);
    events := [late, BeginInspect, go, go] + [go, Run(PASS), go, Tick(0)];
    RunsAppend(w, [late, BeginInspect, go, go], [go, Run(PASS), go, Tick(0)]);
    InspectRemovesState(w);
    LateLogEntry(Runs(w, [late, BeginInspect, go, go]));
  }

  lemma InspectRemovesState(w: World)
    requires w.manager == Idle && w.disk.state.Some?
    ensures var late, go := Tick(w.disk.state.value.deadline), Manage(PASS);
      var v := Runs(w, [late, BeginInspect, go, go]);
      v.manager == MExpiring(Remove(LogFile)) && !v.disk.plist && v.disk.state.None? && v.runner == w.runner
  {
    var late, go := Tick(w.disk.state.value.deadline), Manage(PASS);
    RunsFour(w, late, BeginInspect, go, go);
  }

  lemma LateLogEntry(w: World)
    requires w.manager == MExpiring(Remove(LogFile)) && !w.disk.plist && w.disk.state.None? && w.runner.Logging?
    ensures var go := Manage(PASS);
      var v := Runs(w, [go, Run(PASS), go, Tick(0)]);
      v.disk.log && !v.disk.plist && v.disk.state.None? && !v.loaded && v.manager == Idle
  {
    RunsFour(w, Manage(PASS), Run(PASS), Manage(PASS), Tick(0));
  }

  // ---- When an expiry leaves a log ----

  /** The job is about to log, or in a cycle that can still get there before its deadline. */
  predicate CanStillLog(w: World) {
    || w.runner.Logging?
    || (CycleOf(w.runner).Some? && w.now < CycleOf(w.runner).value.cfg.deadline)
    || (w.runner.Loaded? && w.now < w.runner.cfg.deadline)
  }

  /** The state file's deadline has passed, nobody stops or starts, and no log is left where none should be:
      behind its removal by an expiry, and once the job is unloaded. */
  predicate Tidy(w: World) {
    && (w.manager.Idle? || w.manager.MExpiring?)
    && (w.disk.state.Some? ==> w.now >= w.disk.state.value.deadline)
    && (w.disk.log ==> w.loaded && w.manager != MExpiring(BootOut) && w.runner != Expiring(BootOut))
  }

  /** The log has outlived the job: no clean-up is under way, and none has a reason to begin. */
  predicate LogLeft(w: World) {
    w.disk.log && !w.loaded && w.manager.Idle?
  }

  lemma TidyRunStep(w: World, a: Answer)
    requires Tidy(w) && !CanStillLog(w)
    ensures Tidy(RunStep(w, a)) && !CanStillLog(RunStep(w, a))
  {
  }

  lemma TidyManageStep(w: World, a: Answer)
    requires Tidy(w) && !CanStillLog(w)
    ensures Tidy(ManageStep(w, a)) && !CanStillLog(ManageStep(w, a))
  {
  }

  lemma TidyNext(w: World, e: Event)
    requires Tidy(w) && !CanStillLog(w) && !e.BeginStop? && !e.BeginStart?
    ensures Tidy(Next(w, e)) && !CanStillLog(Next(w, e))
  {
    match e
    case Run(a) => TidyRunStep(w, a);
    case Manage(a) => TidyManageStep(w, a);
    case _ =>
  }

  lemma {:induction false} TidyRuns(w: World, events: seq<Event>)
    requires Tidy(w) && !CanStillLog(w) && NoStopOrStart(events)
    ensures Tidy(Runs(w, events)) && !CanStillLog(Runs(w, events))
  {
    if events != [] {
      assert events[|events| - 1] in events;
      TidyRuns(w, events[..|events| - 1]);
      TidyNext(Runs(w, events[..|events| - 1]), events[|events| - 1]);
    }
  }

  lemma RunsFirst(w: World, e: Event, rest: seq<Event>)
    ensures Runs(w, [e] + rest) == Runs(Next(w, e), rest)
  {
    RunsAppend(w, [e], rest);
    assert [e][..0] == [] && Runs(w, []) == w;
  }

  /** The steps from here to the logging of the outcome. */
  function StepsToLog(r: Runner): nat {
    match r
    case Loaded(_) => 8
    case Opened(_) => 7
    case Measured(_, _) => 6
    case Armed(_, _) => 5
    case Retrying(_, _, _, _) => 4
    case Attempting(_, _, _, _) => 3
    case Probing(_, _, _, _) => 2
    case Finished(_, _, _) => 1
    case _ => 0
  }

  lemma OneStepToLog(w: World)
    requires CanStillLog(w) && !w.runner.Logging?
    ensures var v := RunStep(w, PASS);
      && CanStillLog(v) && StepsToLog(v.runner) < StepsToLog(w.runner)
      && v.manager == w.manager && v.disk == w.disk
  {
  }

  lemma {:induction false} DriveToLogging(w: World) returns (events: seq<Event>)
    requires CanStillLog(w)
    ensures NoStopOrStart(events)
    ensures var v := Runs(w, events); v.runner.Logging? && v.manager == w.manager && v.disk == w.disk
    decreases StepsToLog(w.runner)
  {
    events := [];
    if !w.runner.Logging? {
      OneStepToLog(w);
      var rest := DriveToLogging(RunStep(w, PASS));
      RunsFirst(w, Run(PASS), rest);
      events := [Run(PASS)] + rest;
    }
  }

  function StepsLeft(step: CleanUp): nat {
    match step
    case Remove(PlistFile) => 3
    case Remove(StateFile) => 2
    case Remove(LogFile) => 1
    case BootOut => 0
  }

  /** The outcome is logged between the removal of the log and the unloading of the job. */
  lemma {:induction false} LogsAtTheEnd(w: World) returns (events: seq<Event>)
    requires w.runner.Logging? && w.manager.MExpiring?
    ensures NoStopOrStart(events) && LogLeft(Runs(w, events))
    decreases StepsLeft(w.manager.next)
  {
    if w.manager.next.BootOut? {
      events := [Run(PASS)] + [Manage(PASS)];
      RunsFirst(w, Run(PASS), [Manage(PASS)]);
      RunsFirst(RunStep(w, PASS), Manage(PASS), []);
      assert [Manage(PASS)] + [] == [Manage(PASS)];
    } else {
      var rest := LogsAtTheEnd(ManageStep(w, PASS));
      RunsFirst(w, Manage(PASS), rest);
      events := [Manage(PASS)] + rest;
    }
  }

  /** At whatever step an expiry by Inspect is: without a stop or a start it can leave a log behind if and
      only if the job is about to log, or in a cycle whose own deadline is still ahead. */
  lemma ExpiryLeavesALogExactly(w: World)
    requires Tidy(w) && w.manager.MExpiring?
    ensures (exists events :: NoStopOrStart(events) && LogLeft(Runs(w, events))) <==> CanStillLog(w)
  {
    if CanStillLog(w) {
      var cycle := DriveToLogging(w);
      var end := LogsAtTheEnd(Runs(w, cycle));
      RunsAppend(w, cycle, end);
      assert NoStopOrStart(cycle + end);
    } else {
      forall events | NoStopOrStart(events) ensures !LogLeft(Runs(w, events)) {
        TidyRuns(w, events);
      }
    }
  }
}
