/**
  Any number of fetch drivers on one page. Every script is one atomic turn of the page; between any
  two turns any driver, any pending job, any delayed script or a navigation may act.
 */
module FetchSystem {
  import opened Common
  import opened FetchPage
  import opened FetchDriver

  /** A script whose driver gave up on it, and which the browser may still execute. */
  datatype Script = StartOf(job: JobId) | ClearOf(job: JobId)

  /** The asynchronous job a start script left running. A navigation kills it. */
  datatype Task = Pending | Settled(outcome: Outcome) | Killed

  datatype System = System(
    slot: Slot, tasks: map<JobId, Task>, drivers: map<JobId, Driver>, cleared: set<JobId>, late: set<Script>)

  const EMPTY := System(None, map[], map[], {}, {})

  datatype Action =
    | Open(job: JobId, maxBytes: nat)              // a driver draws a fresh job id
    | StartNow(job: JobId)                         // its start script runs and the answer arrives
    | PollNow(job: JobId)
    | Sleep(job: JobId, expired: bool)
    | ReadNow(job: JobId)
    | Lose(job: JobId, timedOut: bool)             // the driver's current script fails; a start may run later
    | ClearNow(job: JobId)                         // deferred clean-up of a driver that had started
    | ClearLost(job: JobId)
    | RunLate(script: Script)                      // a script its driver gave up on runs after all
    | Complete(job: JobId, response: Response)     // the page's job finishes and writes its record
    | Navigate                                     // the page goes away with its slot and its jobs

  predicate InPhase(s: System, job: JobId, phase: Phase) {
    job in s.drivers && s.drivers[job].phase == phase
  }

  predicate WantsClear(s: System, job: JobId) {
    job in s.drivers && s.drivers[job].phase.Finished? && s.drivers[job].started && job !in s.cleared
  }

  predicate AwaitsScript(s: System, job: JobId) {
    job in s.drivers && (s.drivers[job].phase.Starting? || s.drivers[job].phase.Polling?
      || s.drivers[job].phase.Reading?)
  }

  predicate Enabled(s: System, a: Action) {
    match a
    case Open(j, _) => j !in s.drivers
    case StartNow(j) => InPhase(s, j, Starting)
    case PollNow(j) => InPhase(s, j, Polling)
    case Sleep(j, _) => InPhase(s, j, Sleeping)
    case ReadNow(j) => j in s.drivers && s.drivers[j].phase.Reading?
    case Lose(j, _) => AwaitsScript(s, j)
    case ClearNow(j) => WantsClear(s, j)
    case ClearLost(j) => WantsClear(s, j)
    case RunLate(script) => script in s.late
    case Complete(j, _) => j in s.tasks && s.tasks[j] == Pending && j in s.drivers
    case Navigate => true
  }

  function Deliver(s: System, job: JobId, e: Event): System
    requires job in s.drivers
  {
    s.(drivers := s.drivers[job := Step(s.drivers[job], e)])
  }

  /** The page executes a start script: it is refused, or it installs a record and a pending job. */
  function PageStarts(s: System, job: JobId): System {
    var (slot, word) := StartScript(s.slot, job);
    s.(slot := slot, tasks := if word == "started" then s.tasks[job := Pending] else s.tasks)
  }

  function PageClears(s: System, job: JobId): System {
    s.(slot := ClearScript(s.slot, job).0)
  }

  function Next(s: System, a: Action): System
    requires Enabled(s, a)
  {
    match a
    case Open(j, maxBytes) => s.(drivers := s.drivers[j := NewDriver(maxBytes)])
    case StartNow(j) => Deliver(PageStarts(s, j), j, Word(StartScript(s.slot, j).1))
    case PollNow(j) => Deliver(s, j, Meta(PollScript(s.slot, j)))
    case Sleep(j, expired) => Deliver(s, j, Slept(expired))
    case ReadNow(j) => Deliver(s, j, Chunk(ReadScript(s.slot, j, s.drivers[j].phase.index)))
    case Lose(j, timedOut) =>
      Deliver(if s.drivers[j].phase.Starting? then s.(late := s.late + {StartOf(j)}) else s, j, ScriptFailed(timedOut))
    case ClearNow(j) => PageClears(s, j).(cleared := s.cleared + {j})
    case ClearLost(j) => s.(cleared := s.cleared + {j}, late := s.late + {ClearOf(j)})
    case RunLate(script) =>
      var s' := s.(late := s.late - {script});
      (match script case StartOf(j) => PageStarts(s', j) case ClearOf(j) => PageClears(s', j))
    case Complete(j, response) =>
      var outcome := Settle(response, s.drivers[j].maxBytes);
      s.(slot := Some(RecordOf(j, outcome)), tasks := s.tasks[j := Settled(outcome)])
    case Navigate =>
      s.(slot := None, tasks := map j | j in s.tasks :: if s.tasks[j] == Pending then Killed else s.tasks[j])
  }

  /** A run: actions that are not enabled when their turn comes do nothing. */
  function Run(s: System, actions: seq<Action>): System
    decreases |actions|
  {
    if actions == [] then s
    else Run(if Enabled(s, actions[0]) then Next(s, actions[0]) else s, actions[1..])
  }

  // ---- What every reachable state satisfies ----

  /** The slot's record belongs to the job it names: running means pending, done or failed means the
      record is the one that job's own outcome produced. */
  ghost predicate SlotHonest(s: System) {
    s.slot.Some? ==>
      var r := s.slot.value;
      && r.job in s.tasks
      && (r.Running? ==> s.tasks[r.job] == Pending)
      && (!r.Running? ==> s.tasks[r.job].Settled? && r == RecordOf(r.job, s.tasks[r.job].outcome))
  }

  /** A driver that is reading holds exactly the first chunks of the body its own job fetched. */
  ghost predicate HasRead(task: Task, meta: PageMeta, index: nat, data: seq<Byte>) {
    && task.Settled? && task.outcome.Fetched?
    && var chunks := Chunks(task.outcome.body);
    && meta == PageMeta("done", "", task.outcome.status, |task.outcome.body|, |chunks|, task.outcome.contentType)
    && index < |chunks|
    && data == Concat(chunks[..index])
  }

  /** The checks that end a transfer for outside reasons; the others never fire. */
  predicate External(c: Check) {
    c == Transport || c == StartBusy || c == PageSaidError || c == RecordGone || c == Waiting
  }

  ghost predicate DriverHonest(s: System, job: JobId)
    requires job in s.drivers
  {
    match s.drivers[job].phase
    case Starting => job !in s.tasks && StartOf(job) !in s.late
    case Reading(meta, index, data) => job in s.tasks && HasRead(s.tasks[job], meta, index, data)
    case Finished(Success(data, status, contentType)) =>
      job in s.tasks && s.tasks[job] == Settled(Fetched(status, data, contentType))
    case Finished(Failure(_, check)) => External(check)
    case _ => true
  }

  ghost predicate TasksHonest(s: System) {
    && (forall j | j in s.tasks :: j in s.drivers && !s.drivers[j].phase.Starting?)
    && (forall j | j in s.tasks && s.tasks[j].Settled? && s.tasks[j].outcome.Fetched? ::
         |s.tasks[j].outcome.body| <= s.drivers[j].maxBytes)
    && (forall j | StartOf(j) in s.late :: j in s.drivers && s.drivers[j].phase.Finished? && j !in s.tasks)
  }

  ghost predicate Honest(s: System) {
    && SlotHonest(s)
    && TasksHonest(s)
    && forall j | j in s.drivers :: DriverHonest(s, j)
  }

  lemma {:induction false} ChunkPrefix(body: seq<Byte>, i: nat)
    requires i < |Chunks(body)|
    ensures Concat(Chunks(body)[..i + 1]) == Concat(Chunks(body)[..i]) + Chunks(body)[i]
    ensures |Concat(Chunks(body)[..i + 1])| <= |body|
  {
    ConcatStep(Chunks(body), i);
    ConcatGrows(Chunks(body), i + 1);
    ChunksJoin(body);
  }

  /** The chunk-count bound never refuses a body within the size limit. */
  lemma ChunkBoundAdmits(body: seq<Byte>, maxBytes: nat)
    requires |body| <= maxBytes
    ensures |Chunks(body)| <= MaxChunks(maxBytes)
    ensures |body| > 0 ==> |Chunks(body)| > 0
  {
  }

  lemma SettleIsBounded(r: Response, maxBytes: nat)
    ensures Settle(r, maxBytes).Fetched? ==> |Settle(r, maxBytes).body| <= maxBytes
  {
  }

  /** What the first poll after the job is done leads to. */
  lemma PollDone(body: seq<Byte>, status: nat, contentType: string, maxBytes: nat, job: JobId)
    requires |body| <= maxBytes
    ensures var outcome := Fetched(status, body, contentType);
      var meta := PollScript(Some(RecordOf(job, outcome)), job);
      var phase := BeginReading(maxBytes, meta);
      if body == [] then phase == Finished(Success([], status, contentType))
      else phase == Reading(meta, 0, []) && HasRead(Settled(outcome), meta, 0, [])
  {
    ChunkBoundAdmits(body, maxBytes);
  }

  /** One more chunk read from the job's own record: reading on, or done with the whole body. */
  lemma ReadOne(outcome: Outcome, meta: PageMeta, index: nat, data: seq<Byte>, maxBytes: nat, job: JobId)
    requires HasRead(Settled(outcome), meta, index, data) && |outcome.body| <= maxBytes
    ensures var piece := ReadScript(Some(RecordOf(job, outcome)), job, index);
      var phase := OnChunk(maxBytes, meta, index, data, Chunk(piece));
      if index + 1 == |Chunks(outcome.body)| then
        phase == Finished(Success(outcome.body, outcome.status, outcome.contentType))
      else phase == Reading(meta, index + 1, Concat(Chunks(outcome.body)[..index + 1]))
  {
    var chunks := Chunks(outcome.body);
    ChunkPrefix(outcome.body, index);
    PieceOf(job, outcome, index);
    if index + 1 == |chunks| {
      ChunksJoin(outcome.body);
      assert chunks[..|chunks|] == chunks;
    }
  }

  lemma PieceOf(job: JobId, outcome: Outcome, index: nat)
    requires outcome.Fetched? && index < |Chunks(outcome.body)|
    ensures ReadScript(Some(RecordOf(job, outcome)), job, index)
      == Piece("chunk", index, Encoded(Chunks(outcome.body)[index]))
  {
  }

  /** A turn of one driver, behind its start, that leaves it honest. */
  lemma DriverTurn(s: System, j: JobId, d: Driver)
    requires Honest(s) && j in s.drivers && !s.drivers[j].phase.Starting? && !s.drivers[j].phase.Finished?
    requires !d.phase.Starting? && d.maxBytes == s.drivers[j].maxBytes
    requires DriverHonest(s.(drivers := s.drivers[j := d]), j)
    ensures Honest(s.(drivers := s.drivers[j := d]))
  {
    var s' := s.(drivers := s.drivers[j := d]);
    forall k | k in s'.drivers ensures DriverHonest(s', k) {
      if k != j { assert DriverHonest(s, k); }
    }
  }

  lemma PollKeepsHonest(s: System, j: JobId)
    requires Honest(s) && InPhase(s, j, Polling)
    ensures Honest(Next(s, PollNow(j)))
  {
    if s.slot.Some? && s.slot.value.job == j && s.slot.value.Done? {
      var o := s.tasks[j].outcome;
      PollDone(o.body, o.status, o.contentType, s.drivers[j].maxBytes, j);
    }
    assert DriverHonest(Next(s, PollNow(j)), j);
    DriverTurn(s, j, Next(s, PollNow(j)).drivers[j]);
  }

  lemma ReadKeepsDriver(s: System, j: JobId)
    requires Honest(s) && Enabled(s, ReadNow(j))
    ensures DriverHonest(Next(s, ReadNow(j)), j)
  {
    var Reading(meta, index, data) := s.drivers[j].phase;
    assert DriverHonest(s, j);
    if s.slot.Some? && s.slot.value.job == j {
      ReadOne(s.tasks[j].outcome, meta, index, data, s.drivers[j].maxBytes, j);
    }
  }

  lemma ReadKeepsHonest(s: System, j: JobId)
    requires Honest(s) && Enabled(s, ReadNow(j))
    ensures Honest(Next(s, ReadNow(j)))
  {
    ReadKeepsDriver(s, j);
    DriverTurn(s, j, Next(s, ReadNow(j)).drivers[j]);
  }

  lemma CompleteKeepsHonest(s: System, j: JobId, r: Response)
    requires Honest(s) && Enabled(s, Complete(j, r))
    ensures Honest(Next(s, Complete(j, r)))
  {
    SettleIsBounded(r, s.drivers[j].maxBytes);
    var s' := Next(s, Complete(j, r));
    forall k | k in s'.drivers ensures DriverHonest(s', k) { assert DriverHonest(s, k); }
  }

  lemma PageStartsKeeps(s: System, j: JobId)
    requires SlotHonest(s) && j !in s.tasks
    ensures SlotHonest(PageStarts(s, j))
    ensures PageStarts(s, j).tasks == s.tasks || PageStarts(s, j).tasks == s.tasks[j := Pending]
  {
  }

  lemma StartKeepsHonest(s: System, j: JobId)
    requires Honest(s) && InPhase(s, j, Starting)
    ensures Honest(Next(s, StartNow(j)))
  {
    assert DriverHonest(s, j);
    PageStartsKeeps(s, j);
    var s' := Next(s, StartNow(j));
    forall k | k in s'.drivers ensures DriverHonest(s', k) { assert DriverHonest(s, k); }
  }

  lemma LateKeepsHonest(s: System, script: Script)
    requires Honest(s) && script in s.late
    ensures Honest(Next(s, RunLate(script)))
  {
    var s' := Next(s, RunLate(script));
    if script.StartOf? {
      PageStartsKeeps(s.(late := s.late - {script}), script.job);
    }
    forall k | k in s'.drivers ensures DriverHonest(s', k) { assert DriverHonest(s, k); }
  }

  lemma DriverKeepsHonest(s: System, a: Action)
    requires Honest(s) && Enabled(s, a)
    requires a.Open? || a.Sleep? || a.Lose?
    ensures Honest(Next(s, a))
  {
    var s' := Next(s, a);
    forall k | k in s'.drivers ensures DriverHonest(s', k) {
      if k in s.drivers { assert DriverHonest(s, k); }
    }
  }

  lemma ClearKeepsHonest(s: System, a: Action)
    requires Honest(s) && Enabled(s, a)
    requires a.ClearNow? || a.ClearLost?
    ensures Honest(Next(s, a))
  {
    var s' := Next(s, a);
    assert s'.tasks == s.tasks && s'.drivers == s.drivers;
    forall k | k in s'.drivers ensures DriverHonest(s', k) { assert DriverHonest(s, k); }
  }

  lemma NavigateKeepsHonest(s: System)
    requires Honest(s)
    ensures Honest(Next(s, Navigate))
  {
    var s' := Next(s, Navigate);
    forall k | k in s'.drivers ensures DriverHonest(s', k) { assert DriverHonest(s, k); }
  }

  lemma StepKeepsHonest(s: System, a: Action)
    requires Honest(s) && Enabled(s, a)
    ensures Honest(Next(s, a))
  {
    match a
    case StartNow(j) => StartKeepsHonest(s, j);
    case PollNow(j) => PollKeepsHonest(s, j);
    case ReadNow(j) => ReadKeepsHonest(s, j);
    case RunLate(script) => LateKeepsHonest(s, script);
    case Complete(j, r) => CompleteKeepsHonest(s, j, r);
    case Navigate => NavigateKeepsHonest(s);
    case ClearNow(_) => ClearKeepsHonest(s, a);
    case ClearLost(_) => ClearKeepsHonest(s, a);
    case _ => DriverKeepsHonest(s, a);
  }

  lemma {:induction false} RunsAreHonest(s: System, actions: seq<Action>)
    requires Honest(s)
    ensures Honest(Run(s, actions))
    decreases |actions|
  {
    if actions != [] {
      if Enabled(s, actions[0]) {
        StepKeepsHonest(s, actions[0]);
      }
      RunsAreHonest(if Enabled(s, actions[0]) then Next(s, actions[0]) else s, actions[1..]);
    }
  }

  /** In every run of any number of drivers, a driver that returns success returns exactly the whole
      body its own job fetched, with that job's status, within its size limit. */
  lemma SuccessIsOwnWholeBody(actions: seq<Action>, j: JobId)
    requires var s := Run(EMPTY, actions);
      j in s.drivers && s.drivers[j].phase.Finished? && s.drivers[j].phase.ending.Success?
    ensures var s := Run(EMPTY, actions);
      var e := s.drivers[j].phase.ending;
      && j in s.tasks && s.tasks[j] == Settled(Fetched(e.status, e.data, e.contentType))
      && |e.data| <= s.drivers[j].maxBytes
  {
    RunsAreHonest(EMPTY, actions);
    assert DriverHonest(Run(EMPTY, actions), j);
  }

  /** In every run, a driver that fails does so for an outside reason: a script or the timer failed,
      another fetch was running, its own job failed, or its record was gone. None of the driver's
      own size, chunk-count, encoding and length checks ever refuses. */
  lemma FailureIsExternal(actions: seq<Action>, j: JobId)
    requires var s := Run(EMPTY, actions);
      j in s.drivers && s.drivers[j].phase.Finished? && s.drivers[j].phase.ending.Failure?
    ensures External(Run(EMPTY, actions).drivers[j].phase.ending.check)
  {
    RunsAreHonest(EMPTY, actions);
    assert DriverHonest(Run(EMPTY, actions), j);
  }

  // ---- What can take a record out of the slot ----

  predicate Holds(s: System, j: JobId) {
    s.slot.Some? && s.slot.value.job == j
  }

  /** A job's record leaves the slot only through its own clear, a navigation, another job's
      completion or, once it is no longer running, another job's start; never another job's clear. */
  lemma RecordLoss(s: System, a: Action, j: JobId)
    requires Enabled(s, a) && Holds(s, j) && !Holds(Next(s, a), j)
    ensures match a
      case ClearNow(k) => k == j
      case RunLate(ClearOf(k)) => k == j
      case StartNow(k) => k != j && !s.slot.value.Running?
      case RunLate(StartOf(k)) => k != j && !s.slot.value.Running?
      case Complete(k, _) => k != j
      case Navigate => true
      case _ => false
  {
  }

  /** While it stays in the slot, a finished record stays as it is. */
  lemma FinishedRecordIsStable(s: System, a: Action, j: JobId)
    requires Honest(s) && Enabled(s, a) && Holds(s, j) && !s.slot.value.Running? && Holds(Next(s, a), j)
    ensures Next(s, a).slot == s.slot
  {
  }

  // ---- When the busy answer keeps fetches apart ----

  /** Every pending job is the one the slot says is running; so there is at most one. */
  ghost predicate Exclusive(s: System) {
    forall j | j in s.tasks && s.tasks[j] == Pending :: s.slot == Some(Running(j))
  }

  /** The action does not clear a record whose job is still running. */
  predicate LeavesRunningAlone(s: System, a: Action) {
    match a
    case ClearNow(j) => s.slot != Some(Running(j))
    case RunLate(ClearOf(j)) => s.slot != Some(Running(j))
    case _ => true
  }

  /** Exactly the clear of a still running job (a driver that gave up on its poll or its timer) ends
      the mutual exclusion; no other action does. */
  lemma ExclusionIsExact(s: System, a: Action)
    requires Honest(s) && Exclusive(s) && Enabled(s, a)
    ensures Exclusive(Next(s, a)) <==> LeavesRunningAlone(s, a)
  {
    var s' := Next(s, a);
    if !LeavesRunningAlone(s, a) {
      var j := s.slot.value.job;
      assert j in s'.tasks && s'.tasks[j] == Pending && s'.slot == None;
    } else {
      if a.RunLate? && a.script.StartOf? {
        assert a.script.job !in s.tasks;
      }
      if a.StartNow? {
        assert DriverHonest(s, a.job);
      }
      forall j | j in s'.tasks && s'.tasks[j] == Pending ensures s'.slot == Some(Running(j)) {
      }
    }
  }

  predicate NeverClearsRunning(s: System, actions: seq<Action>)
    decreases |actions|
  {
    actions == [] ||
    if Enabled(s, actions[0]) then
      LeavesRunningAlone(s, actions[0]) && NeverClearsRunning(Next(s, actions[0]), actions[1..])
    else NeverClearsRunning(s, actions[1..])
  }

  lemma {:induction false} ExclusionOverRuns(s: System, actions: seq<Action>)
    requires Honest(s) && Exclusive(s) && NeverClearsRunning(s, actions)
    ensures Exclusive(Run(s, actions))
    decreases |actions|
  {
    if actions != [] {
      if Enabled(s, actions[0]) {
        StepKeepsHonest(s, actions[0]);
        ExclusionIsExact(s, actions[0]);
        ExclusionOverRuns(Next(s, actions[0]), actions[1..]);
      } else {
        ExclusionOverRuns(s, actions[1..]);
      }
    }
  }

  /** In a run without such clears at most one fetch is under way at any time. */
  lemma AtMostOnePending(actions: seq<Action>, j: JobId, k: JobId)
    requires NeverClearsRunning(EMPTY, actions)
    requires var s := Run(EMPTY, actions);
      j in s.tasks && k in s.tasks && s.tasks[j] == Pending && s.tasks[k] == Pending
    ensures j == k
  {
    ExclusionOverRuns(EMPTY, actions);
  }

  /** Two drivers open; the first starts its job, gives up on a poll that times out and clears. */
  function GiveUp(j: JobId, m: nat, k: JobId, n: nat): seq<Action> {
    [Open(j, m), Open(k, n)] + [StartNow(j), Lose(j, true)] + [ClearNow(j), StartNow(k)]
  }

  lemma ReachPolling(j: JobId, m: nat, k: JobId, n: nat, rest: seq<Action>) returns (s: System)
    requires j != k
    ensures Run(EMPTY, [Open(j, m), Open(k, n)] + ([StartNow(j), Lose(j, true)] + rest)) == Run(s, rest)
    ensures s.slot == Some(Running(j)) && s.tasks == map[j := Pending] && WantsClear(s, j) && InPhase(s, k, Starting)
  {
    var both := Next(Next(EMPTY, Open(j, m)), Open(k, n));
    RunTwo(EMPTY, Open(j, m), Open(k, n), [StartNow(j), Lose(j, true)] + rest);
    RunTwo(both, StartNow(j), Lose(j, true), rest);
    s := Next(Next(both, StartNow(j)), Lose(j, true));
  }

  /** Such a clear lets another fetch start beside the one still running. */
  lemma EarlyClearLetsTwoRun(j: JobId, m: nat, k: JobId, n: nat)
    requires j != k
    ensures var both := Run(EMPTY, GiveUp(j, m, k, n));
      && both.slot == Some(Running(k)) && InPhase(both, k, Polling)
      && both.tasks == map[j := Pending, k := Pending] && j in both.drivers
  {
    var s := ReachPolling(j, m, k, n, [ClearNow(j), StartNow(k)] + []);
    assert GiveUp(j, m, k, n) == [Open(j, m), Open(k, n)]
      + ([StartNow(j), Lose(j, true)] + ([ClearNow(j), StartNow(k)] + []));
    RunTwo(s, ClearNow(j), StartNow(k), []);
  }

  /** With two jobs side by side the older one's completion overwrites the newer one's record, whose
      driver then finds it missing. */
  lemma LateCompletionCostsTheNextFetch(j: JobId, m: nat, k: JobId, n: nat, r: Response)
    requires j != k
    ensures InPhase(Run(EMPTY, GiveUp(j, m, k, n) + [Complete(j, r), PollNow(k)]), k,
      Fail(CodeResponseUnverifiable, RecordGone))
  {
    var both := Run(EMPTY, GiveUp(j, m, k, n));
    EarlyClearLetsTwoRun(j, m, k, n);
    RunAppend(EMPTY, GiveUp(j, m, k, n), [Complete(j, r), PollNow(k)]);
    RunTwo(both, Complete(j, r), PollNow(k), []);
    assert [Complete(j, r), PollNow(k)] + [] == [Complete(j, r), PollNow(k)];
  }

  lemma {:induction false} RunAppend(s: System, a: seq<Action>, b: seq<Action>)
    ensures Run(s, a + b) == Run(Run(s, a), b)
    decreases |a|
  {
    if a == [] {
      assert a + b == b;
    } else {
      assert (a + b)[1..] == a[1..] + b;
      RunAppend(if Enabled(s, a[0]) then Next(s, a[0]) else s, a[1..], b);
    }
  }

  lemma RunTwo(s: System, a: Action, b: Action, rest: seq<Action>)
    requires Enabled(s, a) && Enabled(Next(s, a), b)
    ensures Run(s, [a, b] + rest) == Run(Next(Next(s, a), b), rest)
  {
    assert [a, b] + rest == [a] + ([b] + rest);
    RunStep(s, a, [b] + rest);
    RunStep(Next(s, a), b, rest);
  }

  lemma RunStep(s: System, a: Action, rest: seq<Action>)
    requires Enabled(s, a)
    ensures Run(s, [a] + rest) == Run(Next(s, a), rest)
  {
    assert ([a] + rest)[1..] == rest;
  }

  // ---- An undisturbed transfer succeeds ----

  function Reads(j: JobId, n: nat): seq<Action> {
    seq(n, _ => ReadNow(j))
  }

  lemma {:induction false} ReadsFinish(s: System, j: JobId)
    requires Honest(s) && j in s.drivers && s.drivers[j].phase.Reading? && j in s.tasks
    requires s.tasks[j].Settled? && s.slot == Some(RecordOf(j, s.tasks[j].outcome))
    ensures var o := s.tasks[j].outcome;
      && o.Fetched? && s.drivers[j].phase.index <= |Chunks(o.body)|
      && InPhase(Run(s, Reads(j, |Chunks(o.body)| - s.drivers[j].phase.index)), j,
           Finished(Success(o.body, o.status, o.contentType)))
    decreases if s.tasks[j].outcome.Fetched? then |Chunks(s.tasks[j].outcome.body)| - s.drivers[j].phase.index else 0
  {
    assert DriverHonest(s, j);
    var o := s.tasks[j].outcome;
    var Reading(meta, index, data) := s.drivers[j].phase;
    var n := |Chunks(o.body)| - index;
    ReadOne(o, meta, index, data, s.drivers[j].maxBytes, j);
    StepKeepsHonest(s, ReadNow(j));
    var s' := Next(s, ReadNow(j));
    assert Reads(j, n) == [ReadNow(j)] + Reads(j, n - 1);
    RunStep(s, ReadNow(j), Reads(j, n - 1));
    if n > 1 {
      ReadsFinish(s', j);
    }
  }

  /** Once its job has fetched a body and its record stands in the slot, a driver left alone polls
      once, reads each chunk once and returns the body. */
  lemma UndisturbedTransferSucceeds(s: System, j: JobId)
    requires Honest(s) && InPhase(s, j, Polling) && j in s.tasks
    requires s.tasks[j].Settled? && s.tasks[j].outcome.Fetched? && s.slot == Some(RecordOf(j, s.tasks[j].outcome))
    ensures var o := s.tasks[j].outcome;
      InPhase(Run(s, [PollNow(j)] + Reads(j, |Chunks(o.body)|)), j, Finished(Success(o.body, o.status, o.contentType)))
  {
    var o := s.tasks[j].outcome;
    PollDone(o.body, o.status, o.contentType, s.drivers[j].maxBytes, j);
    StepKeepsHonest(s, PollNow(j));
    RunStep(s, PollNow(j), Reads(j, |Chunks(o.body)|));
    if o.body != [] {
      ReadsFinish(Next(s, PollNow(j)), j);
    } else {
      assert Reads(j, 0) == [];
    }
  }
}
