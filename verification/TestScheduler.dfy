/**
 The parallel test scheduler of evm-e2e: N worker threads pull file indices from a mutex-protected
 queue, run one test at a time and count failures in an atomic counter, while the main thread spawns
 them, joins them in order and turns what they returned into a verdict.

 The program is modelled as a transition system in which every shared access is one step, so a run
 is any interleaving of the threads. A test may pass, fail or panic, freely, each time one is run.
 `claims` and `reports` are history: steps only append to them and nothing reads them. What happened in
 a run is read off its actions (`Handed`, `Observed`), and the results are stated of that.
 */
module TestScheduler {
  import opened Prelude

  // ---------------------------------------------------------------- data model

  datatype Config = Config(files: nat, threads: nat, keepGoing: bool) {
    // What `run` guarantees about the pool it builds.
    ghost predicate Valid() {
      threads <= files && (files > 0 ==> threads > 0)
    }
  }

  datatype Outcome = Passed | Failed(error: string) | Crashed

  // Where a worker is in its loop; `Holding` is inside the queue's critical section.
  datatype Worker =
    | NotSpawned
    | Checking
    | Locking
    | Holding(prev: nat)
    | Executing(file: nat)
    | Counting(file: nat, error: string)
    | Stopped
    | Aborted(error: string)
    | Panicked

  datatype ThreadError = TestFailed(error: string) | ThreadPanicked(thread: nat)

  datatype Verdict = AllPassed | ExitWithOne | ReturnError(error: ThreadError)

  datatype Main =
    | Spawning(next: nat)
    | Joining(next: nat, errors: seq<ThreadError>)
    | Done(verdict: Verdict)

  datatype Claim = Claim(thread: nat, file: nat)

  datatype Report = Report(thread: nat, file: nat, outcome: Outcome)

  datatype State = State(
    index: nat,
    lock: Option<nat>,
    errors: nat,
    workers: seq<Worker>,
    main: Main,
    claims: seq<Claim>,
    reports: seq<Report>)

  datatype Action =
    | Spawn
    | Check(thread: nat)
    | Acquire(thread: nat)
    | Release(thread: nat)
    | Complete(thread: nat, outcome: Outcome)
    | Count(thread: nat)
    | Join
    | Conclude

  // ---------------------------------------------------------------- the program

  /** Tracing implies printing and printing implies one thread; no more threads than files. */
  function NumThreads(files: nat, singleThread: bool, trace: bool, printOutcome: bool,
                      parallelism: Option<nat>): (n: nat)
    requires parallelism.Some? ==> parallelism.value > 0
    ensures Config(files, n, false).Valid()
    ensures trace || printOutcome || singleThread || parallelism.None? ==> n <= 1
    ensures parallelism.Some? && !(trace || printOutcome || singleThread) ==>
              n <= parallelism.value && (n == files || n == parallelism.value)
  {
    var printing := printOutcome || trace;
    var single := singleThread || printing;
    var wanted := if single || parallelism.None? then 1 else parallelism.value;
    if wanted <= files then wanted else files
  }

  function AfterSpawning(c: Config, next: nat): Main {
    if next < c.threads then Spawning(next) else Joining(0, [])
  }

  function Init(c: Config): State {
    State(0, None, 0, seq(c.threads, _ => NotSpawned), AfterSpawning(c, 0), [], [])
  }

  predicate Finished(w: Worker) {
    w.Stopped? || w.Aborted? || w.Panicked?
  }

  // What joining thread `i` pushes onto the list of thread errors.
  function Joined(i: nat, w: Worker): seq<ThreadError> {
    match w
    case Aborted(e) => [TestFailed(e)]
    case Panicked => [ThreadPanicked(i)]
    case _ => []
  }

  function Decide(errors: nat, threadErrors: seq<ThreadError>): Verdict {
    if errors == 0 && threadErrors == [] then AllPassed
    else if threadErrors == [] then ExitWithOne
    else ReturnError(threadErrors[0])
  }

  predicate Enabled(c: Config, s: State, a: Action) {
    match a
    case Spawn => s.main.Spawning? && s.main.next < |s.workers|
    case Check(t) => t < |s.workers| && s.workers[t].Checking?
    case Acquire(t) => t < |s.workers| && s.workers[t].Locking? && s.lock.None?
    case Release(t) => t < |s.workers| && s.workers[t].Holding?
    case Complete(t, _) => t < |s.workers| && s.workers[t].Executing?
    case Count(t) => t < |s.workers| && s.workers[t].Counting?
    case Join => s.main.Joining? && s.main.next < |s.workers| && Finished(s.workers[s.main.next])
    case Conclude => s.main.Joining? && s.main.next == |s.workers|
  }

  function Apply(c: Config, s: State, a: Action): State
    requires Enabled(c, s, a)
  {
    match a
    case Spawn =>
      s.(workers := s.workers[s.main.next := Checking], main := AfterSpawning(c, s.main.next + 1))
    case Check(t) =>
      s.(workers := s.workers[t := if !c.keepGoing && s.errors > 0 then Stopped else Locking])
    case Acquire(t) =>
      s.(lock := Some(t), workers := s.workers[t := Holding(s.index)])
    case Release(t) =>
      var prev := s.workers[t].prev;
      if prev < c.files then
        s.(lock := None, index := prev + 1, workers := s.workers[t := Executing(prev)],
           claims := s.claims + [Claim(t, prev)])
      else
        s.(lock := None, workers := s.workers[t := Stopped])
    case Complete(t, outcome) =>
      var file := s.workers[t].file;
      var next := match outcome
        case Passed => Checking
        case Failed(e) => Counting(file, e)
        case Crashed => Panicked;
      s.(workers := s.workers[t := next], reports := s.reports + [Report(t, file, outcome)])
    case Count(t) =>
      var next := if c.keepGoing then Checking else Aborted(s.workers[t].error);
      s.(workers := s.workers[t := next], errors := s.errors + 1)
    case Join =>
      var i := s.main.next;
      s.(main := Joining(i + 1, s.main.errors + Joined(i, s.workers[i])))
    case Conclude =>
      s.(main := Done(Decide(s.errors, s.main.errors)))
  }

  /** `s` leads to `s'` by taking exactly the actions `run`, in that order. */
  ghost predicate Leads(c: Config, s: State, run: seq<Action>, s': State)
    decreases |run|
  {
    if run == [] then s == s'
    else Enabled(c, s, run[0]) && Leads(c, Apply(c, s, run[0]), run[1..], s')
  }

  ghost predicate Reachable(c: Config, s: State) {
    c.Valid() && exists run :: Leads(c, Init(c), run, s)
  }

  // ---------------------------------------------------------------- what happened in a run

  // The files that releasing the queue put into the hands of a thread.
  ghost function Handed(c: Config, s: State, run: seq<Action>): seq<Claim>
    decreases |run|
  {
    if run == [] || !Enabled(c, s, run[0]) then []
    else
      var a, s' := run[0], Apply(c, s, run[0]);
      var now := if a.Release? && s'.workers[a.thread].Executing?
                 then [Claim(a.thread, s'.workers[a.thread].file)] else [];
      now + Handed(c, s', run[1..])
  }

  // The tests that ended: on which thread, on which file, and how.
  ghost function Observed(c: Config, s: State, run: seq<Action>): seq<Report>
    decreases |run|
  {
    if run == [] || !Enabled(c, s, run[0]) then []
    else
      var a := run[0];
      var now := if a.Complete? then [Report(a.thread, s.workers[a.thread].file, a.outcome)] else [];
      now + Observed(c, Apply(c, s, a), run[1..])
  }

  lemma Reassociate<T>(a: seq<T>, b: seq<T>, c: seq<T>)
    ensures a + b + c == a + (b + c)
  {}

  /** The history is what happened. */
  lemma {:induction false} RunIsRecorded(c: Config, s: State, run: seq<Action>, s': State)
    requires Leads(c, s, run, s')
    ensures s'.claims == s.claims + Handed(c, s, run)
    ensures s'.reports == s.reports + Observed(c, s, run)
    decreases |run|
  {
    if run == [] {
    } else {
      var a, s1, rest := run[0], Apply(c, s, run[0]), run[1..];
      RunIsRecorded(c, s1, rest, s');
      var handed := if a.Release? && s1.workers[a.thread].Executing?
                    then [Claim(a.thread, s1.workers[a.thread].file)] else [];
      var observed := if a.Complete? then [Report(a.thread, s.workers[a.thread].file, a.outcome)] else [];
      Reassociate(s.claims, handed, Handed(c, s1, rest));
      Reassociate(s.reports, observed, Observed(c, s1, rest));
      assert s1.claims == s.claims + handed;
      assert s1.reports == s.reports + observed;
    }
  }

  lemma WholeRunIsRecorded(c: Config, run: seq<Action>, s: State)
    requires c.Valid() && Leads(c, Init(c), run, s)
    ensures Reachable(c, s)
    ensures s.claims == Handed(c, Init(c), run) && s.reports == Observed(c, Init(c), run)
  {
    RunIsRecorded(c, Init(c), run, s);
  }

  // ---------------------------------------------------------------- counting

  datatype Kind = InFlight | Uncounted | Returning | Dead | Committed

  predicate Is(k: Kind, w: Worker) {
    match k
    case InFlight => w.Executing?
    case Uncounted => w.Counting?
    case Returning => w.Aborted?
    case Dead => w.Panicked?
    case Committed => w.Locking? || w.Holding?
  }

  function Tally(ws: seq<Worker>, k: Kind): nat {
    if ws == [] then 0 else (if Is(k, ws[0]) then 1 else 0) + Tally(ws[1..], k)
  }

  function Reports(rs: seq<Report>, o: Outcome -> bool): nat {
    if rs == [] then 0
    else Reports(rs[..|rs| - 1], o) + if o(rs[|rs| - 1].outcome) then 1 else 0
  }

  const IsFailure: Outcome -> bool := (o: Outcome) => o.Failed?
  const IsCrash: Outcome -> bool := (o: Outcome) => o.Crashed?

  lemma {:induction false} TallyUpdate(ws: seq<Worker>, t: nat, w: Worker, k: Kind)
    requires t < |ws|
    ensures Tally(ws[t := w], k) + (if Is(k, ws[t]) then 1 else 0)
         == Tally(ws, k) + (if Is(k, w) then 1 else 0)
  {
    if t == 0 {
      assert ws[t := w][1..] == ws[1..];
    } else {
      assert ws[t := w][1..] == ws[1..][t - 1 := w];
      TallyUpdate(ws[1..], t - 1, w, k);
    }
  }

  lemma {:induction false} TallyZero(ws: seq<Worker>, k: Kind)
    ensures Tally(ws, k) == 0 <==> forall t :: 0 <= t < |ws| ==> !Is(k, ws[t])
  {
    if ws == [] {
    } else {
      TallyZero(ws[1..], k);
      assert forall t :: 0 < t < |ws| ==> ws[t] == ws[1..][t - 1];
    }
  }

  lemma {:induction false} TallyBelow(ws: seq<Worker>, k: Kind, t: nat)
    requires t < |ws| && !Is(k, ws[t])
    ensures Tally(ws, k) <= |ws| - 1
  {
    if t > 0 {
      TallyBelow(ws[1..], k, t - 1);
    } else {
      TallyAtMost(ws[1..], k);
    }
  }

  lemma {:induction false} TallyAtMost(ws: seq<Worker>, k: Kind)
    ensures Tally(ws, k) <= |ws|
  {
    if ws == [] {
    } else {
      TallyAtMost(ws[1..], k);
    }
  }

  lemma ReportsAppend(rs: seq<Report>, r: Report, o: Outcome -> bool)
    ensures Reports(rs + [r], o) == Reports(rs, o) + if o(r.outcome) then 1 else 0
  {
    assert (rs + [r])[..|rs + [r]| - 1] == rs;
  }

  lemma {:induction false} ReportsZero(rs: seq<Report>, o: Outcome -> bool)
    ensures Reports(rs, o) == 0 <==> forall i :: 0 <= i < |rs| ==> !o(rs[i].outcome)
  {
    if rs == [] {
    } else {
      ReportsZero(rs[..|rs| - 1], o);
    }
  }

  // ---------------------------------------------------------------- the invariant

  ghost predicate HasReport(rs: seq<Report>, t: nat, o: Outcome) {
    exists i :: 0 <= i < |rs| && rs[i].thread == t && rs[i].outcome == o
  }

  ghost predicate ReportedFile(rs: seq<Report>, f: nat) {
    exists i :: 0 <= i < |rs| && rs[i].file == f
  }

  // Mutual exclusion: whoever is in the critical section read the current index.
  ghost predicate LockInv(s: State) {
    && (forall t :: 0 <= t < |s.workers| && s.workers[t].Holding? ==>
          s.lock == Some(t) && s.workers[t].prev == s.index)
    && (s.lock.Some? ==> s.lock.value < |s.workers| && s.workers[s.lock.value].Holding?)
  }

  // Files are handed out in order, each once.
  ghost predicate ClaimInv(c: Config, s: State) {
    && s.index <= c.files
    && |s.claims| == s.index
    && (forall k :: 0 <= k < |s.claims| ==> s.claims[k].file == k && s.claims[k].thread < |s.workers|)
  }

  // A claimed file is either being run by its claimer or was reported once, by its claimer.
  ghost predicate ReportInv(s: State) {
    && (forall i :: 0 <= i < |s.reports| ==>
          s.reports[i].file < |s.claims| && s.claims[s.reports[i].file].thread == s.reports[i].thread)
    && (forall i, j :: 0 <= i < j < |s.reports| ==> s.reports[i].file != s.reports[j].file)
    && (forall t :: 0 <= t < |s.workers| && s.workers[t].Executing? ==>
          && s.workers[t].file < |s.claims|
          && s.claims[s.workers[t].file].thread == t
          && !ReportedFile(s.reports, s.workers[t].file))
    && (forall k :: 0 <= k < |s.claims| && s.claims[k].thread < |s.workers| ==>
          ReportedFile(s.reports, k) || s.workers[s.claims[k].thread] == Executing(k))
  }

  // Nothing claimed and no error is lost or counted twice.
  ghost predicate TallyInv(c: Config, s: State) {
    && |s.claims| == |s.reports| + Tally(s.workers, InFlight)
    && Reports(s.reports, IsFailure) == s.errors + Tally(s.workers, Uncounted)
    && Reports(s.reports, IsCrash) == Tally(s.workers, Dead)
    && Tally(s.workers, Returning) == (if c.keepGoing then 0 else s.errors)
  }

  // Why a worker is where it is: the report behind an error, the reason for stopping.
  ghost predicate Explained(c: Config, s: State, t: nat, w: Worker) {
    match w
    case Counting(_, e) => HasReport(s.reports, t, Failed(e))
    case Aborted(e) => HasReport(s.reports, t, Failed(e))
    case Panicked => HasReport(s.reports, t, Crashed)
    case Stopped => s.index == c.files || (!c.keepGoing && s.errors > 0)
    case _ => true
  }

  ghost predicate WorkerInv(c: Config, s: State) {
    forall t :: 0 <= t < |s.workers| ==> Explained(c, s, t, s.workers[t])
  }

  function Collect(ws: seq<Worker>): seq<ThreadError> {
    if ws == [] then [] else Collect(ws[..|ws| - 1]) + Joined(|ws| - 1, ws[|ws| - 1])
  }

  ghost predicate MainInv(c: Config, s: State) {
    match s.main
    case Spawning(next) =>
      next < c.threads && forall t :: 0 <= t < |s.workers| ==> (s.workers[t].NotSpawned? <==> next <= t)
    case Joining(next, errors) =>
      && next <= c.threads
      && (forall t :: 0 <= t < |s.workers| ==> !s.workers[t].NotSpawned?)
      && (forall t :: 0 <= t < next && t < |s.workers| ==> Finished(s.workers[t]))
      && (next <= |s.workers| ==> errors == Collect(s.workers[..next]))
    case Done(verdict) =>
      && (forall t :: 0 <= t < |s.workers| ==> Finished(s.workers[t]))
      && verdict == Decide(s.errors, Collect(s.workers))
  }

  ghost predicate Inv(c: Config, s: State) {
    && c.Valid()
    && |s.workers| == c.threads
    && LockInv(s)
    && ClaimInv(c, s)
    && ReportInv(s)
    && TallyInv(c, s)
    && WorkerInv(c, s)
    && MainInv(c, s)
  }

  // ---------------------------------------------------------------- every step keeps it

  lemma InitInv(c: Config)
    requires c.Valid()
    ensures Inv(c, Init(c))
  {
    var ws := Init(c).workers;
    forall k ensures Tally(ws, k) == 0 { TallyZero(ws, k); }
  }

  lemma StepLockInv(c: Config, s: State, a: Action)
    requires Inv(c, s) && Enabled(c, s, a)
    ensures LockInv(Apply(c, s, a))
  {}

  lemma StepClaimInv(c: Config, s: State, a: Action)
    requires Inv(c, s) && Enabled(c, s, a)
    ensures ClaimInv(c, Apply(c, s, a))
  {}

  lemma ReportedFileAppend(rs: seq<Report>, r: Report, f: nat)
    ensures ReportedFile(rs + [r], f) <==> ReportedFile(rs, f) || r.file == f
  {
    if ReportedFile(rs, f) {
      var i :| 0 <= i < |rs| && rs[i].file == f;
      assert (rs + [r])[i].file == f;
    }
    if r.file == f {
      assert (rs + [r])[|rs|].file == f;
    }
  }

  lemma HasReportAppend(rs: seq<Report>, r: Report, t: nat, o: Outcome)
    requires HasReport(rs, t, o) || (r.thread == t && r.outcome == o)
    ensures HasReport(rs + [r], t, o)
  {
    if HasReport(rs, t, o) {
      var i :| 0 <= i < |rs| && rs[i].thread == t && rs[i].outcome == o;
      assert (rs + [r])[i] == rs[i];
    } else {
      assert (rs + [r])[|rs|] == r;
    }
  }

  // Completing the test of thread `t` turns its claim into a report.
  lemma CompleteReportInv(c: Config, s: State, t: nat, outcome: Outcome)
    requires ReportInv(s) && Enabled(c, s, Complete(t, outcome))
    ensures ReportInv(Apply(c, s, Complete(t, outcome)))
  {
    var s' := Apply(c, s, Complete(t, outcome));
    var r := Report(t, s.workers[t].file, outcome);
    forall f: nat ensures ReportedFile(s'.reports, f) <==> ReportedFile(s.reports, f) || r.file == f {
      ReportedFileAppend(s.reports, r, f);
    }
    assert forall i :: 0 <= i < |s.reports| ==> s.reports[i].file != r.file;
    assert forall i :: 0 <= i < |s.reports| ==> s'.reports[i] == s.reports[i];
  }

  lemma ReleaseReportInv(c: Config, s: State, t: nat)
    requires ReportInv(s) && ClaimInv(c, s) && LockInv(s) && Enabled(c, s, Release(t))
    ensures ReportInv(Apply(c, s, Release(t)))
  {
    var s' := Apply(c, s, Release(t));
    assert forall k :: 0 <= k < |s.claims| ==> s'.claims[k] == s.claims[k];
    assert !ReportedFile(s.reports, |s.claims|);
  }

  lemma StepReportInv(c: Config, s: State, a: Action)
    requires ReportInv(s) && ClaimInv(c, s) && LockInv(s) && MainInv(c, s) && Enabled(c, s, a)
    ensures ReportInv(Apply(c, s, a))
  {
    if a.Complete? {
      CompleteReportInv(c, s, a.thread, a.outcome);
    } else if a.Release? {
      ReleaseReportInv(c, s, a.thread);
    } else {
      var s' := Apply(c, s, a);
      assert forall u :: 0 <= u < |s.workers| ==>
        (s.workers[u].Executing? || s'.workers[u].Executing? ==> s.workers[u] == s'.workers[u]);
    }
  }

  lemma TallyMove(ws: seq<Worker>, t: nat, w: Worker)
    requires t < |ws|
    ensures forall k :: Tally(ws[t := w], k) + (if Is(k, ws[t]) then 1 else 0)
                     == Tally(ws, k) + (if Is(k, w) then 1 else 0)
  {
    forall k ensures Tally(ws[t := w], k) + (if Is(k, ws[t]) then 1 else 0)
                  == Tally(ws, k) + (if Is(k, w) then 1 else 0)
    {
      TallyUpdate(ws, t, w, k);
    }
  }

  lemma CompleteTallyInv(c: Config, s: State, t: nat, outcome: Outcome)
    requires TallyInv(c, s) && Enabled(c, s, Complete(t, outcome))
    ensures TallyInv(c, Apply(c, s, Complete(t, outcome)))
  {
    var s' := Apply(c, s, Complete(t, outcome));
    TallyMove(s.workers, t, s'.workers[t]);
    ReportsAppend(s.reports, Report(t, s.workers[t].file, outcome), IsFailure);
    ReportsAppend(s.reports, Report(t, s.workers[t].file, outcome), IsCrash);
  }

  lemma StepTallyInv(c: Config, s: State, a: Action)
    requires TallyInv(c, s) && Enabled(c, s, a)
    requires a.Spawn? ==> s.workers[s.main.next].NotSpawned?
    ensures TallyInv(c, Apply(c, s, a))
  {
    if a.Complete? {
      CompleteTallyInv(c, s, a.thread, a.outcome);
    } else if !a.Join? && !a.Conclude? {
      var t := if a.Spawn? then s.main.next else a.thread;
      TallyMove(s.workers, t, Apply(c, s, a).workers[t]);
    }
  }

  lemma CompleteWorkerInv(c: Config, s: State, t: nat, outcome: Outcome)
    requires WorkerInv(c, s) && Enabled(c, s, Complete(t, outcome))
    ensures WorkerInv(c, Apply(c, s, Complete(t, outcome)))
  {
    var r := Report(t, s.workers[t].file, outcome);
    forall u: nat, o | HasReport(s.reports, u, o) || (r.thread == u && r.outcome == o)
      ensures HasReport(s.reports + [r], u, o)
    {
      HasReportAppend(s.reports, r, u, o);
    }
  }

  lemma StepWorkerInv(c: Config, s: State, a: Action)
    requires WorkerInv(c, s) && LockInv(s) && ClaimInv(c, s) && Enabled(c, s, a)
    ensures WorkerInv(c, Apply(c, s, a))
  {
    if a.Complete? { CompleteWorkerInv(c, s, a.thread, a.outcome); }
  }

  lemma JoinMainInv(c: Config, s: State)
    requires |s.workers| == c.threads && MainInv(c, s) && Enabled(c, s, Join)
    ensures MainInv(c, Apply(c, s, Join))
  {
    var i := s.main.next;
    assert s.workers[..i + 1][..i] == s.workers[..i];
  }

  lemma JoiningMainInv(c: Config, s: State, a: Action)
    requires s.main.Joining? && |s.workers| == c.threads && MainInv(c, s) && Enabled(c, s, a)
    ensures MainInv(c, Apply(c, s, a))
  {
    var i := s.main.next;
    if a.Join? {
      JoinMainInv(c, s);
    } else if a.Conclude? {
      assert s.workers[..i] == s.workers;
    } else {
      assert Apply(c, s, a).workers[..i] == s.workers[..i];
    }
  }

  lemma StepMainInv(c: Config, s: State, a: Action)
    requires |s.workers| == c.threads && MainInv(c, s) && Enabled(c, s, a)
    ensures MainInv(c, Apply(c, s, a))
  {
    if s.main.Joining? { JoiningMainInv(c, s, a); }
  }

  lemma StepInv(c: Config, s: State, a: Action)
    requires Inv(c, s) && Enabled(c, s, a)
    ensures Inv(c, Apply(c, s, a))
  {
    StepLockInv(c, s, a);
    StepClaimInv(c, s, a);
    StepReportInv(c, s, a);
    StepTallyInv(c, s, a);
    StepWorkerInv(c, s, a);
    StepMainInv(c, s, a);
  }

  lemma {:induction false} RunInv(c: Config, s: State, run: seq<Action>, s': State)
    requires Inv(c, s) && Leads(c, s, run, s')
    ensures Inv(c, s')
    decreases |run|
  {
    if run == [] {
    } else {
      StepInv(c, s, run[0]);
      RunInv(c, Apply(c, s, run[0]), run[1..], s');
    }
  }

  lemma ReachableInv(c: Config, s: State)
    requires Reachable(c, s)
    ensures Inv(c, s)
  {
    var run :| Leads(c, Init(c), run, s);
    InitInv(c);
    RunInv(c, Init(c), run, s);
  }

  // ---------------------------------------------------------------- what the verdict means

  lemma {:induction false} CollectEmpty(ws: seq<Worker>)
    ensures Collect(ws) == [] <==> forall t :: 0 <= t < |ws| ==> !ws[t].Aborted? && !ws[t].Panicked?
  {
    if ws == [] {
    } else {
      var init := ws[..|ws| - 1];
      CollectEmpty(init);
      assert forall t :: 0 <= t < |init| ==> init[t] == ws[t];
    }
  }

  // The same, by counting.
  lemma CollectNothing(ws: seq<Worker>)
    ensures Collect(ws) == [] <==> Tally(ws, Returning) == 0 && Tally(ws, Dead) == 0
  {
    CollectEmpty(ws);
    TallyZero(ws, Returning);
    TallyZero(ws, Dead);
    assert forall t :: 0 <= t < |ws| ==> (Is(Returning, ws[t]) <==> ws[t].Aborted?);
    assert forall t :: 0 <= t < |ws| ==> (Is(Dead, ws[t]) <==> ws[t].Panicked?);
  }

  /** The error handed back is that of the lowest-numbered thread that has one. */
  lemma {:induction false} CollectFirst(ws: seq<Worker>) returns (t: nat)
    requires Collect(ws) != []
    ensures t < |ws| && Joined(t, ws[t]) == [Collect(ws)[0]]
    ensures forall u :: 0 <= u < t ==> Joined(u, ws[u]) == []
  {
    var init := ws[..|ws| - 1];
    if Collect(init) == [] {
      t := |ws| - 1;
      CollectEmpty(init);
      assert forall u :: 0 <= u < t ==> ws[u] == init[u];
    } else {
      t := CollectFirst(init);
    }
  }

  /** File `f` was claimed once and reported once, by its claimer, as passed. */
  ghost predicate RanOnceAndPassed(claims: seq<Claim>, reports: seq<Report>, f: nat) {
    exists k, i ::
      && 0 <= k < |claims| && claims[k].file == f
      && 0 <= i < |reports| && reports[i] == Report(claims[k].thread, f, Passed)
      && (forall k' :: 0 <= k' < |claims| && claims[k'].file == f ==> k' == k)
      && (forall i' :: 0 <= i' < |reports| && reports[i'].file == f ==> i' == i)
  }

  // When the main thread is done no worker is in the middle of anything.
  lemma DoneIsQuiet(c: Config, s: State)
    requires Inv(c, s) && s.main.Done?
    ensures Tally(s.workers, InFlight) == 0 && Tally(s.workers, Uncounted) == 0
    ensures |s.reports| == s.index && s.errors == Reports(s.reports, IsFailure)
    ensures forall f: nat :: f < s.index ==> ReportedFile(s.reports, f)
  {
    TallyZero(s.workers, InFlight);
    TallyZero(s.workers, Uncounted);
  }

  // Workers only stop early once an error has been counted.
  lemma QueueIsExhausted(c: Config, s: State)
    requires Inv(c, s) && s.main.Done?
    requires c.keepGoing || s.errors == 0
    requires c.threads > 0 ==> exists t :: 0 <= t < |s.workers| && s.workers[t].Stopped?
    ensures s.index == c.files
  {
    if c.threads > 0 {
      var t :| 0 <= t < |s.workers| && s.workers[t].Stopped?;
      assert Explained(c, s, t, s.workers[t]);
    }
  }

  lemma NoBadReports(c: Config, s: State)
    requires Inv(c, s) && s.main.Done?
    ensures s.main.verdict.AllPassed? <==>
      && Reports(s.reports, IsFailure) == 0 && Reports(s.reports, IsCrash) == 0
    ensures s.main.verdict.AllPassed? ==> s.index == c.files
  {
    DoneIsQuiet(c, s);
    CollectNothing(s.workers);
    if s.main.verdict.AllPassed? {
      CollectEmpty(s.workers);
      assert c.threads > 0 ==> s.workers[0].Stopped?;
      QueueIsExhausted(c, s);
    }
  }

  lemma OneGoodReport(c: Config, s: State, f: nat)
    requires Inv(c, s) && f < |s.claims| && ReportedFile(s.reports, f)
    requires Reports(s.reports, IsFailure) == 0 && Reports(s.reports, IsCrash) == 0
    ensures RanOnceAndPassed(s.claims, s.reports, f)
  {
    var i :| 0 <= i < |s.reports| && s.reports[i].file == f;
    ReportsZero(s.reports, IsFailure);
    ReportsZero(s.reports, IsCrash);
    assert !IsFailure(s.reports[i].outcome) && !IsCrash(s.reports[i].outcome);
    assert s.claims[f].file == f && s.reports[i] == Report(s.claims[f].thread, f, Passed);
  }

  /**
   `run` reports success exactly when every file was claimed by exactly one thread, ran to
   completion there and passed.
   */
  lemma AllPassedIffEveryFilePassed(c: Config, run: seq<Action>, s: State)
    requires c.Valid() && Leads(c, Init(c), run, s) && s.main.Done?
    ensures var claims, reports := Handed(c, Init(c), run), Observed(c, Init(c), run);
            && (s.main.verdict.AllPassed? <==> forall f: nat :: f < c.files ==> RanOnceAndPassed(claims, reports, f))
            && (s.main.verdict.AllPassed? ==> |claims| == |reports| == c.files)
  {
    WholeRunIsRecorded(c, run, s);
    ReachableInv(c, s);
    NoBadReports(c, s);
    DoneIsQuiet(c, s);
    if s.main.verdict.AllPassed? {
      forall f: nat | f < c.files ensures RanOnceAndPassed(s.claims, s.reports, f) {
        OneGoodReport(c, s, f);
      }
    }
    if forall f: nat :: f < c.files ==> RanOnceAndPassed(s.claims, s.reports, f) {
      forall i | 0 <= i < |s.reports| ensures s.reports[i].outcome.Passed? {
        assert RanOnceAndPassed(s.claims, s.reports, s.reports[i].file);
      }
      ReportsZero(s.reports, IsFailure);
      ReportsZero(s.reports, IsCrash);
    }
  }

  /**
   The process exits with status 1 exactly when it was told to keep going, some test failed and no
   thread panicked.
   */
  lemma ExitStatusOne(c: Config, run: seq<Action>, s: State)
    requires c.Valid() && Leads(c, Init(c), run, s) && s.main.Done?
    ensures var reports := Observed(c, Init(c), run);
            s.main.verdict.ExitWithOne? <==>
              c.keepGoing && Reports(reports, IsFailure) > 0 && Reports(reports, IsCrash) == 0
  {
    WholeRunIsRecorded(c, run, s);
    ReachableInv(c, s);
    DoneIsQuiet(c, s);
    CollectNothing(s.workers);
  }

  /**
   An error that comes back belongs to the first thread that has one, and to a test that really
   ended that way.
   */
  lemma ReturnedErrorIsReal(c: Config, run: seq<Action>, s: State)
    requires c.Valid() && Leads(c, Init(c), run, s) && s.main.Done? && s.main.verdict.ReturnError?
    ensures exists t ::
      0 <= t < |s.workers| && Blamed(c, s.workers, Observed(c, Init(c), run), t, s.main.verdict.error)
  {
    WholeRunIsRecorded(c, run, s);
    ReachableInv(c, s);
    var t := CollectFirst(s.workers);
    if s.workers[t].Aborted? {
      TallyZero(s.workers, Returning);
      assert Is(Returning, s.workers[t]);
    }
    FirstIsBlamed(c, s, t, s.main.verdict.error);
  }

  lemma FirstIsBlamed(c: Config, s: State, t: nat, e: ThreadError)
    requires WorkerInv(c, s) && t < |s.workers| && Joined(t, s.workers[t]) == [e]
    requires forall u :: 0 <= u < t ==> Finished(s.workers[u]) && Joined(u, s.workers[u]) == []
    requires s.workers[t].Aborted? ==> !c.keepGoing
    ensures Blamed(c, s.workers, s.reports, t, e)
  {
    assert Explained(c, s, t, s.workers[t]);
  }

  ghost predicate Blamed(c: Config, workers: seq<Worker>, reports: seq<Report>, t: nat, e: ThreadError) {
    && (forall u :: 0 <= u < t && u < |workers| ==> workers[u].Stopped?)
    && match e
       case TestFailed(text) => !c.keepGoing && HasReport(reports, t, Failed(text))
       case ThreadPanicked(u) => u == t && HasReport(reports, t, Crashed)
  }

  /** The join loop and the final branch of `run`. */
  method JoinAndDecide(exits: seq<Worker>, errors: nat) returns (verdict: Verdict)
    requires forall t :: 0 <= t < |exits| ==> Finished(exits[t])
    ensures verdict == Decide(errors, Collect(exits))
    ensures verdict.AllPassed? <==> errors == 0 && forall t :: 0 <= t < |exits| ==> exits[t].Stopped?
  {
    var threadErrors: seq<ThreadError> := [];
    var i := 0;
    while i < |exits|
      invariant 0 <= i <= |exits|
      invariant threadErrors == Collect(exits[..i])
    {
      match exits[i] {
        case Aborted(e) => threadErrors := threadErrors + [TestFailed(e)];
        case Panicked => threadErrors := threadErrors + [ThreadPanicked(i)];
        case _ =>
      }
      assert exits[..i + 1][..i] == exits[..i];
      i := i + 1;
    }
    assert exits[..i] == exits;
    CollectEmpty(exits);
    if errors == 0 && |threadErrors| == 0 {
      verdict := AllPassed;
    } else if |threadErrors| == 0 {
      verdict := ExitWithOne;
    } else {
      verdict := ReturnError(threadErrors[0]);
    }
  }

  /**
   After every run the shared index is the number of files handed out, which is finished plus panicked
   plus in-flight tests, and the error counter lags behind the failed tests only by those not yet counted.
   */
  lemma NothingIsLost(c: Config, run: seq<Action>, s: State)
    requires c.Valid() && Leads(c, Init(c), run, s)
    ensures var claims, reports := Handed(c, Init(c), run), Observed(c, Init(c), run);
            && s.index == |claims| == |reports| + Tally(s.workers, InFlight) <= c.files
            && Reports(reports, IsFailure) == s.errors + Tally(s.workers, Uncounted)
            && Reports(reports, IsCrash) == Tally(s.workers, Dead)
            && (s.main.Done? ==> s.errors == Reports(reports, IsFailure))
  {
    WholeRunIsRecorded(c, run, s);
    ReachableInv(c, s);
    if s.main.Done? { DoneIsQuiet(c, s); }
  }

  /** With `keep_going` a single surviving thread is enough for every file to be run. */
  lemma KeepGoingRunsEverything(c: Config, run: seq<Action>, s: State)
    requires c.Valid() && Leads(c, Init(c), run, s) && s.main.Done? && c.keepGoing
    ensures (forall f: nat :: f < c.files ==> ReportedFile(Observed(c, Init(c), run), f))
         || forall t :: 0 <= t < |s.workers| ==> s.workers[t].Panicked?
  {
    WholeRunIsRecorded(c, run, s);
    ReachableInv(c, s);
    DoneIsQuiet(c, s);
    TallyZero(s.workers, Returning);
    if t :| 0 <= t < |s.workers| && !s.workers[t].Panicked? {
      assert !Is(Returning, s.workers[t]) && Finished(s.workers[t]);
      QueueIsExhausted(c, s);
    }
  }

  // ---------------------------------------------------------------- stopping early

  lemma StepAfterError(c: Config, s: State, a: Action)
    requires Inv(c, s) && Enabled(c, s, a) && !c.keepGoing && s.errors > 0
    ensures Apply(c, s, a).index + Tally(Apply(c, s, a).workers, Committed)
         <= s.index + Tally(s.workers, Committed)
    ensures Apply(c, s, a).errors > 0
  {
    var s' := Apply(c, s, a);
    if !a.Join? && !a.Conclude? {
      var t := if a.Spawn? then s.main.next else a.thread;
      TallyUpdate(s.workers, t, s'.workers[t], Committed);
    }
  }

  lemma {:induction false} RunAfterError(c: Config, s: State, run: seq<Action>, s': State)
    requires Inv(c, s) && Leads(c, s, run, s') && !c.keepGoing && s.errors > 0
    ensures s'.index <= s.index + Tally(s.workers, Committed)
    decreases |run|
  {
    if run == [] {
    } else {
      StepInv(c, s, run[0]);
      StepAfterError(c, s, run[0]);
      RunAfterError(c, Apply(c, s, run[0]), run[1..], s');
    }
  }

  // A thread that came back with an error claims nothing more.
  lemma SomeThreadIsOut(c: Config, s: State)
    requires TallyInv(c, s) && |s.workers| == c.threads && !c.keepGoing && s.errors > 0
    ensures Tally(s.workers, Committed) <= c.threads - 1
  {
    TallyZero(s.workers, Returning);
    var t :| 0 <= t < |s.workers| && Is(Returning, s.workers[t]);
    TallyBelow(s.workers, Committed, t);
  }

  /**
   Without `keep_going`, at most `threads - 1` more files are claimed from any point at which the
   error counter is positive, in particular from the moment it first is.
   */
  lemma FewClaimsAfterAnError(c: Config, s: State, run: seq<Action>, s': State)
    requires Reachable(c, s) && Leads(c, s, run, s') && !c.keepGoing && s.errors > 0
    ensures |Handed(c, s, run)| <= c.threads - 1
  {
    ReachableInv(c, s);
    SomeThreadIsOut(c, s);
    RunIsRecorded(c, s, run, s');
    RunInv(c, s, run, s');
    RunAfterError(c, s, run, s');
  }

  lemma {:induction false} Extend(c: Config, s: State, run: seq<Action>, s1: State, a: Action)
    requires Leads(c, s, run, s1) && Enabled(c, s1, a)
    ensures Leads(c, s, run + [a], Apply(c, s1, a))
    decreases |run|
  {
    if run == [] {
      assert (run + [a])[1..] == [];
    } else {
      Extend(c, Apply(c, s, run[0]), run[1..], s1, a);
      assert (run + [a])[1..] == run[1..] + [a];
    }
  }

  // Thread 0 is at `w0`, the threads below `k` at `done` and the others at `rest`.
  function Crowd(n: nat, w0: Worker, k: nat, done: Worker, rest: Worker): seq<Worker> {
    seq(n, i => if i == 0 then w0 else if i < k then done else rest)
  }

  lemma {:induction false} SpawnSome(c: Config, k: nat) returns (run: seq<Action>)
    requires c.Valid() && 0 < k <= c.threads
    ensures Leads(c, Init(c), run,
      State(0, None, 0, Crowd(c.threads, Checking, k, Checking, NotSpawned), AfterSpawning(c, k), [], []))
  {
    var before: State;
    if k == 1 {
      run, before := [], Init(c);
    } else {
      run := SpawnSome(c, k - 1);
      before := State(0, None, 0, Crowd(c.threads, Checking, k - 1, Checking, NotSpawned),
                      AfterSpawning(c, k - 1), [], []);
    }
    Extend(c, Init(c), run, before, Spawn);
    assert Apply(c, before, Spawn).workers == Crowd(c.threads, Checking, k, Checking, NotSpawned);
    run := run + [Spawn];
  }

  // Thread 0 runs file 0 while the threads below `k` have passed the error check.
  lemma {:induction false} ParkSome(c: Config, k: nat) returns (run: seq<Action>)
    requires c.Valid() && 0 < k <= c.threads
    ensures Leads(c, Init(c), run,
      State(1, None, 0, Crowd(c.threads, Executing(0), k, Locking, Checking), Joining(0, []), [Claim(0, 0)], []))
  {
    if k == 1 {
      var n := c.threads;
      run := SpawnSome(c, n);
      var s := State(0, None, 0, Crowd(n, Checking, n, Checking, NotSpawned), AfterSpawning(c, n), [], []);
      var s1 := Apply(c, s, Check(0));
      var s2 := Apply(c, s1, Acquire(0));
      Extend(c, Init(c), run, s, Check(0));
      Extend(c, Init(c), run + [Check(0)], s1, Acquire(0));
      Extend(c, Init(c), run + [Check(0)] + [Acquire(0)], s2, Release(0));
      assert Apply(c, s2, Release(0)).workers == Crowd(n, Executing(0), k, Locking, Checking);
      assert Apply(c, s2, Release(0)).claims == [Claim(0, 0)];
      run := run + [Check(0)] + [Acquire(0)] + [Release(0)];
    } else {
      run := ParkSome(c, k - 1);
      var s := State(1, None, 0, Crowd(c.threads, Executing(0), k - 1, Locking, Checking), Joining(0, []),
                     [Claim(0, 0)], []);
      Extend(c, Init(c), run, s, Check(k - 1));
      assert Apply(c, s, Check(k - 1)).workers == Crowd(c.threads, Executing(0), k, Locking, Checking);
      run := run + [Check(k - 1)];
    }
  }

  // After the error is counted, the threads below `k` have each claimed one more file.
  function Overrun(c: Config, k: nat): State {
    State(k, None, 1,
          seq(c.threads, (i: nat) => if i == 0 then Aborted("") else if i < k then Executing(i) else Locking),
          Joining(0, []), seq(k, (i: nat) => Claim(i, i)), [Report(0, 0, Failed(""))])
  }

  lemma {:induction false} FirstError(c: Config) returns (run: seq<Action>)
    requires c.Valid() && 0 < c.threads && !c.keepGoing
    ensures Leads(c, Init(c), run, Overrun(c, 1))
  {
    var n := c.threads;
    run := ParkSome(c, n);
    var s := State(1, None, 0, Crowd(n, Executing(0), n, Locking, Checking), Joining(0, []), [Claim(0, 0)], []);
    var a := Complete(0, Failed(""));
    Extend(c, Init(c), run, s, a);
    Extend(c, Init(c), run + [a], Apply(c, s, a), Count(0));
    var s' := Apply(c, Apply(c, s, a), Count(0));
    assert s'.workers == Overrun(c, 1).workers;
    assert s'.claims == Overrun(c, 1).claims;
    assert s'.reports == Overrun(c, 1).reports;
    run := run + [a] + [Count(0)];
  }

  lemma {:induction false} ClaimOn(c: Config, k: nat) returns (run: seq<Action>)
    requires c.Valid() && 0 < k <= c.threads && !c.keepGoing
    ensures Leads(c, Overrun(c, 1), run, Overrun(c, k))
  {
    if k == 1 {
      run := [];
    } else {
      run := ClaimOn(c, k - 1);
      var t := k - 1;
      var s := Overrun(c, t);
      Extend(c, Overrun(c, 1), run, s, Acquire(t));
      Extend(c, Overrun(c, 1), run + [Acquire(t)], Apply(c, s, Acquire(t)), Release(t));
      var s' := Apply(c, Apply(c, s, Acquire(t)), Release(t));
      assert s'.workers == Overrun(c, k).workers;
      assert s'.claims == Overrun(c, k).claims;
      run := run + [Acquire(t)] + [Release(t)];
    }
  }

  /** The bound is exact: every pool has a schedule that claims `threads - 1` files too many. */
  lemma OverrunIsReached(c: Config) returns (s: State, run: seq<Action>, s': State)
    requires c.Valid() && 0 < c.threads && !c.keepGoing
    ensures Reachable(c, s) && s.errors == 1 && Leads(c, s, run, s')
    ensures |Handed(c, s, run)| == c.threads - 1
  {
    var start := FirstError(c);
    run := ClaimOn(c, c.threads);
    s, s' := Overrun(c, 1), Overrun(c, c.threads);
    RunIsRecorded(c, s, run, s');
  }

  // ---------------------------------------------------------------- termination and progress

  function Weight(w: Worker): nat {
    match w
    case NotSpawned => 7
    case Checking => 6
    case Locking => 5
    case Holding(_) => 4
    case Executing(_) => 8
    case Counting(_, _) => 7
    case _ => 0
  }

  function Weights(ws: seq<Worker>): nat {
    if ws == [] then 0 else Weight(ws[0]) + Weights(ws[1..])
  }

  lemma {:induction false} WeightsUpdate(ws: seq<Worker>, t: nat, w: Worker)
    requires t < |ws|
    ensures Weights(ws[t := w]) + Weight(ws[t]) == Weights(ws) + Weight(w)
  {
    if t == 0 {
      assert ws[t := w][1..] == ws[1..];
    } else {
      assert ws[t := w][1..] == ws[1..][t - 1 := w];
      WeightsUpdate(ws[1..], t - 1, w);
    }
  }

  lemma {:induction false} WeightsAtStart(ws: seq<Worker>)
    requires forall t :: 0 <= t < |ws| ==> ws[t].NotSpawned?
    ensures Weights(ws) == 7 * |ws|
  {
    if ws == [] {
    } else {
      WeightsAtStart(ws[1..]);
    }
  }

  function Rank(c: Config, s: State): int {
    5 * (c.files - s.index) + Weights(s.workers) +
    match s.main
    case Spawning(next) => 2 * c.threads + 2 - next
    case Joining(next, _) => c.threads + 1 - next
    case Done(_) => 0
  }

  lemma RankIsNatural(c: Config, s: State)
    requires Inv(c, s)
    ensures 0 <= Rank(c, s)
  {}

  lemma StepRank(c: Config, s: State, a: Action)
    requires |s.workers| == c.threads && Enabled(c, s, a)
    requires a.Release? ==> s.workers[a.thread].prev == s.index
    requires a.Spawn? ==> s.workers[s.main.next].NotSpawned?
    ensures Rank(c, Apply(c, s, a)) < Rank(c, s)
  {
    var s' := Apply(c, s, a);
    if !a.Join? && !a.Conclude? {
      var t := if a.Spawn? then s.main.next else a.thread;
      WeightsUpdate(s.workers, t, s'.workers[t]);
    }
  }

  lemma {:induction false} RunRank(c: Config, s: State, run: seq<Action>, s': State)
    requires Inv(c, s) && Leads(c, s, run, s')
    ensures |run| + Rank(c, s') <= Rank(c, s) && 0 <= Rank(c, s')
    decreases |run|
  {
    RankIsNatural(c, s);
    if run == [] {
    } else {
      StepInv(c, s, run[0]);
      StepRank(c, s, run[0]);
      RunRank(c, Apply(c, s, run[0]), run[1..], s');
    }
  }

  /** Every schedule is finite, with this bound on the number of shared-memory steps. */
  lemma SchedulesAreFinite(c: Config, run: seq<Action>, s: State)
    requires c.Valid() && Leads(c, Init(c), run, s)
    ensures |run| <= 5 * c.files + 9 * c.threads + 2
  {
    InitInv(c);
    WeightsAtStart(Init(c).workers);
    RunRank(c, Init(c), run, s);
  }

  /** No reachable state short of the verdict is stuck: some thread can always move. */
  lemma NeverStuck(c: Config, s: State) returns (a: Action)
    requires Reachable(c, s) && !s.main.Done?
    ensures Enabled(c, s, a)
  {
    ReachableInv(c, s);
    match s.main
    case Spawning(_) => a := Spawn;
    case Joining(i, _) =>
      if i == |s.workers| {
        a := Conclude;
      } else {
        match s.workers[i]
        case Checking => a := Check(i);
        case Locking => a := if s.lock.None? then Acquire(i) else Release(s.lock.value);
        case Holding(_) => a := Release(i);
        case Executing(_) => a := Complete(i, Passed);
        case Counting(_, _) => a := Count(i);
        case _ => a := Join;
      }
  }

  // ---------------------------------------------------------------- schedules do not matter

  /** Every test ended the way `oracle` says tests on that file end. */
  ghost predicate Follows(reports: seq<Report>, oracle: nat -> Outcome) {
    forall i :: 0 <= i < |reports| ==> reports[i].outcome == oracle(reports[i].file)
  }

  /**
   If the outcome of a test depends only on its file, then whether `run` succeeds does not depend on
   the schedule, the number of threads or `keep_going`: it does exactly when every test passes.
   */
  lemma SuccessIgnoresTheSchedule(c: Config, run: seq<Action>, s: State, oracle: nat -> Outcome)
    requires c.Valid() && Leads(c, Init(c), run, s) && s.main.Done?
    requires Follows(Observed(c, Init(c), run), oracle)
    ensures s.main.verdict.AllPassed? <==> forall f: nat :: f < c.files ==> oracle(f).Passed?
  {
    AllPassedIffEveryFilePassed(c, run, s);
    WholeRunIsRecorded(c, run, s);
    ReachableInv(c, s);
    NoBadReports(c, s);
    ReportsZero(s.reports, IsFailure);
    ReportsZero(s.reports, IsCrash);
    if s.main.verdict.AllPassed? {
      forall f: nat | f < c.files ensures oracle(f).Passed? {
        assert RanOnceAndPassed(s.claims, s.reports, f);
      }
    }
  }

  function FailedFiles(rs: seq<Report>): set<nat> {
    if rs == [] then {}
    else FailedFiles(rs[..|rs| - 1]) + if IsFailure(rs[|rs| - 1].outcome) then {rs[|rs| - 1].file} else {}
  }

  lemma {:induction false} FailedFilesMembers(rs: seq<Report>, f: nat)
    ensures f in FailedFiles(rs) <==> exists i :: 0 <= i < |rs| && rs[i].file == f && IsFailure(rs[i].outcome)
  {
    if rs == [] {
    } else {
      var init := rs[..|rs| - 1];
      FailedFilesMembers(init, f);
      assert forall i :: 0 <= i < |init| ==> init[i] == rs[i];
    }
  }

  lemma {:induction false} FailedFilesCount(rs: seq<Report>)
    requires forall i, j :: 0 <= i < j < |rs| ==> rs[i].file != rs[j].file
    ensures |FailedFiles(rs)| == Reports(rs, IsFailure)
  {
    if rs == [] {
    } else {
      var init := rs[..|rs| - 1];
      FailedFilesCount(init);
      FailedFilesMembers(init, rs[|rs| - 1].file);
    }
  }

  /**
   With `keep_going` and no panics, the error count is the number of failing files, so every
   schedule ends with the same count and the same verdict.
   */
  lemma ErrorCountIgnoresTheSchedule(c: Config, run: seq<Action>, s: State, oracle: nat -> Outcome)
    requires c.Valid() && Leads(c, Init(c), run, s) && s.main.Done? && c.keepGoing
    requires Follows(Observed(c, Init(c), run), oracle)
    requires forall f: nat :: !oracle(f).Crashed?
    ensures s.errors == |set f: nat | f < c.files && oracle(f).Failed?|
    ensures s.main.verdict == if s.errors == 0 then AllPassed else ExitWithOne
  {
    WholeRunIsRecorded(c, run, s);
    ReachableInv(c, s);
    DoneIsQuiet(c, s);
    ReportsZero(s.reports, IsCrash);
    CollectNothing(s.workers);
    CollectEmpty(s.workers);
    assert c.threads > 0 ==> s.workers[0].Stopped?;
    QueueIsExhausted(c, s);
    FailedFilesCount(s.reports);
    FailedFilesAreThoseOfTheOracle(c, s, oracle);
  }

  lemma FailedFilesAreThoseOfTheOracle(c: Config, s: State, oracle: nat -> Outcome)
    requires Follows(s.reports, oracle)
    requires forall i :: 0 <= i < |s.reports| ==> s.reports[i].file < c.files
    requires forall f: nat :: f < c.files ==> ReportedFile(s.reports, f)
    ensures FailedFiles(s.reports) == set f: nat | f < c.files && oracle(f).Failed?
  {
    forall f: nat ensures f in FailedFiles(s.reports) <==> f < c.files && oracle(f).Failed? {
      FailedFilesMembers(s.reports, f);
      if f < c.files {
        assert ReportedFile(s.reports, f);
      }
    }
  }
}
