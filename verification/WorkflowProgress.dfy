/**
 Workflow progress tracking (core/utils/workflow_progress.py).

 An update reads the stored hash, changes one step, recomputes the aggregates from the changed
 steps, and writes them back in a second command.  Updates of one workflow may overlap.
 */
module WorkflowProgress {
  import opened Basics
  import opened Options

  // Statuses are plain strings: the tracker checks none of them.
  const PENDING := "pending"
  const IN_PROGRESS := "in_progress"
  const COMPLETED := "completed"
  const FAILED := "failed"
  const SKIPPED := "skipped"
  const PARTIAL := "partial"

  /** Times are in microseconds. */
  datatype StepData = StepData(
    status: string, startedAt: Option<int>, completedAt: Option<int>, durationMs: Option<int>,
    resultCount: Option<int>, error: Option<string>)

  type Steps = map<string, StepData>

  datatype Workflow = Workflow(
    status: string, progress: int, totalSteps: int, completedSteps: int, failedSteps: int,
    createdAt: int, updatedAt: int, steps: Steps)

  datatype Update = Update(
    step: string, status: string, resultCount: Option<int>, error: Option<string>, now: int)

  // ----- Starting -----

  const NOT_STARTED: StepData := StepData(PENDING, None, None, None, None, None)

  function InitialSteps(names: seq<string>): Steps {
    map name | name in names :: NOT_STARTED
  }

  function Started(names: seq<string>, now: int): Workflow {
    Workflow(PENDING, 0, |names|, 0, 0, now, now, InitialSteps(names))
  }

  // ----- One update -----

  /** Milliseconds from microseconds, cut off toward zero. */
  function Milliseconds(d: int): int { if d >= 0 then d / 1000 else -((-d) / 1000) }

  lemma MillisecondsCutOff(d: int)
    ensures 0 <= d ==> 1000 * Milliseconds(d) <= d < 1000 * Milliseconds(d) + 1000
    ensures d <= 0 ==> 1000 * Milliseconds(d) - 1000 < d <= 1000 * Milliseconds(d)
  {
  }

  function UpdatedStep(s: StepData, u: Update): StepData {
    var s1 := s.(status := u.status);
    var s2 := if u.status == IN_PROGRESS && s1.startedAt.None? then s1.(startedAt := Some(u.now)) else s1;
    var s3 :=
      if u.status !in [COMPLETED, FAILED, SKIPPED] then s2
      else
        var t := if s2.completedAt.None? then s2.(completedAt := Some(u.now)) else s2;
        if t.startedAt.Some? then t.(durationMs := Some(Milliseconds(u.now - t.startedAt.value))) else t;
    var s4 := if u.resultCount.Some? then s3.(resultCount := u.resultCount) else s3;
    if u.error.Some? && u.error.value != "" then s4.(error := u.error) else s4
  }

  function CountStatus(steps: Steps, status: string): nat {
    |set k | k in steps && steps[k].status == status|
  }

  function ProgressOf(steps: Steps): int {
    if |steps| > 0 then 100 * CountStatus(steps, COMPLETED) / |steps| else 0
  }

  function OverallStatus(steps: Steps): string {
    var completed, failed := CountStatus(steps, COMPLETED), CountStatus(steps, FAILED);
    if failed > 0 && completed > 0 then PARTIAL
    else if failed > 0 && completed == 0 then FAILED
    else if completed == |steps| then COMPLETED
    else if exists k :: k in steps && steps[k].status == IN_PROGRESS then IN_PROGRESS
    else PENDING
  }

  /** What the second command writes over the stored hash. */
  datatype Patch = Patch(
    status: string, progress: int, completedSteps: int, failedSteps: int, updatedAt: int, steps: Steps)

  function PatchFor(w: Workflow, u: Update): Patch
    requires u.step in w.steps
  {
    var steps := w.steps[u.step := UpdatedStep(w.steps[u.step], u)];
    Patch(OverallStatus(steps), ProgressOf(steps), CountStatus(steps, COMPLETED), CountStatus(steps, FAILED),
          u.now, steps)
  }

  function Write(w: Workflow, p: Patch): Workflow {
    w.(status := p.status, progress := p.progress, completedSteps := p.completedSteps,
       failedSteps := p.failedSteps, updatedAt := p.updatedAt, steps := p.steps)
  }

  /** An update that nothing overlaps; one for an unknown step does nothing. */
  function Updated(w: Workflow, u: Update): Workflow {
    if u.step in w.steps then Write(w, PatchFor(w, u)) else w
  }

  function Replayed(w: Workflow, us: seq<Update>): Workflow {
    if us == [] then w else Updated(Replayed(w, us[..|us| - 1]), us[|us| - 1])
  }

  // ----- Consistency of a snapshot -----

  ghost predicate Consistent(w: Workflow) {
    && w.completedSteps == CountStatus(w.steps, COMPLETED)
    && w.failedSteps == CountStatus(w.steps, FAILED)
    && w.progress == ProgressOf(w.steps)
    && w.status == OverallStatus(w.steps)
  }

  lemma CountsOfInitial(names: seq<string>, status: string)
    requires status != PENDING
    ensures CountStatus(InitialSteps(names), status) == 0
  {
    assert (set k | k in InitialSteps(names) && InitialSteps(names)[k].status == status) == {};
  }

  /** A workflow is consistent from its start on exactly when it has a step at all. */
  lemma StartedConsistentIff(names: seq<string>, now: int)
    ensures Consistent(Started(names, now)) <==> names != []
  {
    var steps := InitialSteps(names);
    CountsOfInitial(names, COMPLETED);
    CountsOfInitial(names, FAILED);
    if names != [] {
      assert names[0] in steps;
    } else {
      assert steps == map[];
    }
  }

  lemma UpdateKeepsKeys(w: Workflow, u: Update)
    ensures Updated(w, u).steps.Keys == w.steps.Keys
    ensures Consistent(w) || u.step in w.steps ==> Consistent(Updated(w, u))
  {
  }

  lemma {:induction false} ReplayKeepsKeys(w: Workflow, us: seq<Update>)
    ensures Replayed(w, us).steps.Keys == w.steps.Keys
    ensures Consistent(w) ==> Consistent(Replayed(w, us))
  {
    if us == [] {
    } else {
      ReplayKeepsKeys(w, us[..|us| - 1]);
      UpdateKeepsKeys(Replayed(w, us[..|us| - 1]), us[|us| - 1]);
    }
  }

  lemma SubsetOfKeys(steps: Steps, status: string)
    ensures CountStatus(steps, status) <= |steps|
    ensures CountStatus(steps, status) == |steps| <==> forall k :: k in steps ==> steps[k].status == status
  {
    var matching := set k | k in steps && steps[k].status == status;
    assert matching <= steps.Keys;
    SubsetSize(matching, steps.Keys);
  }

  /** A quotient is below `q` exactly when the dividend is below `q` times the divisor. */
  lemma QuotientBelow(a: nat, n: nat, q: nat)
    requires n > 0
    ensures a / n < q <==> a < q * n
  {
    var k := a / n;
    assert a == n * k + a % n;
    if k < q {
      TimesGrows(n, k + 1, q);
      assert n * (k + 1) == n * k + n;
    } else {
      TimesGrows(n, q, k);
    }
  }

  lemma TimesGrows(n: nat, a: nat, b: nat)
    requires a <= b
    ensures n * a <= n * b
  {
  }

  lemma HundredOnlyWhenWhole(c: nat, n: nat)
    requires c <= n && n > 0
    ensures 100 * c / n == 100 <==> c == n
    ensures 0 <= 100 * c / n <= 100
  {
    QuotientBelow(100 * c, n, 100);
    QuotientBelow(100 * c, n, 101);
  }

  /** A consistent workflow with steps is completed iff it is at 100 percent iff every step is completed. */
  lemma CompletedIffAllSteps(w: Workflow)
    requires Consistent(w) && |w.steps| > 0
    ensures w.status == COMPLETED <==> w.progress == 100
    ensures w.progress == 100 <==> forall k :: k in w.steps ==> w.steps[k].status == COMPLETED
    ensures 0 <= w.progress <= 100
  {
    SubsetOfKeys(w.steps, COMPLETED);
    HundredOnlyWhenWhole(w.completedSteps, |w.steps|);
    if w.completedSteps == |w.steps| {
      assert (set k | k in w.steps && w.steps[k].status == FAILED) == {};
    }
  }

  ghost predicate SomeStep(steps: Steps, status: string) {
    exists k :: k in steps && steps[k].status == status
  }

  lemma CountPositive(steps: Steps, status: string)
    ensures CountStatus(steps, status) > 0 <==> SomeStep(steps, status)
  {
    var matching := set k | k in steps && steps[k].status == status;
    if k :| k in steps && steps[k].status == status {
      assert k in matching;
    } else {
      assert matching == {};
    }
  }

  /** What the overall status says about the steps: each of the five means one thing. */
  lemma StatusIff(w: Workflow)
    requires Consistent(w) && |w.steps| > 0
    ensures w.status == PARTIAL <==> SomeStep(w.steps, FAILED) && SomeStep(w.steps, COMPLETED)
    ensures w.status == FAILED <==> SomeStep(w.steps, FAILED) && !SomeStep(w.steps, COMPLETED)
    ensures w.status == COMPLETED <==> forall k :: k in w.steps ==> w.steps[k].status == COMPLETED
    ensures w.status == IN_PROGRESS <==>
            !SomeStep(w.steps, FAILED) && SomeStep(w.steps, IN_PROGRESS)
    ensures w.status in [PENDING, IN_PROGRESS, COMPLETED, FAILED, PARTIAL]
  {
    CountPositive(w.steps, COMPLETED);
    CountPositive(w.steps, FAILED);
    CompletedIffAllSteps(w);
    SubsetOfKeys(w.steps, COMPLETED);
    assert PARTIAL[1] != PENDING[1] && |PARTIAL| == |PENDING|;
    assert COMPLETED[0] != IN_PROGRESS[0] && COMPLETED[0] != FAILED[0];
    assert |COMPLETED| == 9 && |IN_PROGRESS| == 11 && |FAILED| == 6 && |PENDING| == 7;
  }

  // ----- Overlapping updates -----

  /**
   An update between its two commands: the updates that explain what it read, and how many updates
   had been written when it read.
   */
  datatype Writer = Writer(patch: Patch, read: seq<Update>, update: Update, seen: nat)

  /**
   One workflow and the updates under way.  `history` is the chain of updates that the stored
   snapshot builds on, `begun` every update that has read the workflow so far, and `written` every
   update that has been written, in the order of the writes.
   */
  datatype System = System(
    stored: Workflow, history: seq<Update>, writers: map<nat, Writer>, begun: seq<Update>, written: seq<Update>)

  datatype Action = Begin(worker: nat, update: Update) | Commit(worker: nat)

  function Step(sys: System, a: Action): System {
    match a
    case Begin(worker, u) =>
      if worker in sys.writers || u.step !in sys.stored.steps then sys
      else sys.(writers := sys.writers[worker := Writer(PatchFor(sys.stored, u), sys.history, u, |sys.written|)],
                begun := sys.begun + [u])
    case Commit(worker) =>
      if worker !in sys.writers then sys
      else
        var w := sys.writers[worker];
        sys.(stored := Write(sys.stored, w.patch), history := w.read + [w.update],
             writers := sys.writers - {worker}, written := sys.written + [w.update])
  }

  /** A workflow that nobody is updating yet. */
  function Begun(start: Workflow): System { System(start, [], map[], [], []) }

  function After(sys: System, acts: seq<Action>): System
    decreases |acts|
  {
    if acts == [] then sys else After(Step(sys, acts[0]), acts[1..])
  }

  /** `a` comes out of `b` by leaving out elements. */
  ghost predicate Subsequence<T>(a: seq<T>, b: seq<T>)
    decreases |b|
  {
    || a == []
    || (b != [] && (Subsequence(a, b[..|b| - 1])
                    || (a[|a| - 1] == b[|b| - 1] && Subsequence(a[..|a| - 1], b[..|b| - 1]))))
  }

  lemma SubsequenceGrows<T>(a: seq<T>, b: seq<T>, x: T)
    requires Subsequence(a, b)
    ensures Subsequence(a, b + [x]) && Subsequence(a + [x], b + [x])
  {
    assert (b + [x])[..|b|] == b && (a + [x])[..|a|] == a;
  }

  /** Everything but the fields an update writes is as the workflow was started. */
  ghost predicate SameOrigin(w: Workflow, start: Workflow) {
    && w.createdAt == start.createdAt && w.totalSteps == start.totalSteps
    && w.steps.Keys == start.steps.Keys
  }

  ghost predicate WriterExplained(start: Workflow, w: Writer, begun: seq<Update>) {
    var seen := Replayed(start, w.read);
    && w.update.step in seen.steps
    && w.patch == PatchFor(seen, w.update)
    && Subsequence(w.read + [w.update], begun)
  }

  ghost predicate Explained(start: Workflow, sys: System) {
    && SameOrigin(sys.stored, start)
    && sys.stored == Replayed(start, sys.history)
    && Subsequence(sys.history, sys.begun)
    && forall i :: i in sys.writers ==> WriterExplained(start, sys.writers[i], sys.begun)
  }

  lemma BeginStaysExplained(start: Workflow, sys: System, worker: nat, u: Update)
    requires Explained(start, sys)
    ensures Explained(start, Step(sys, Begin(worker, u)))
  {
    if worker !in sys.writers && u.step in sys.stored.steps {
      SubsequenceGrows(sys.history, sys.begun, u);
      forall i | i in sys.writers
        ensures WriterExplained(start, sys.writers[i], sys.begun + [u])
      {
        SubsequenceGrows(sys.writers[i].read + [sys.writers[i].update], sys.begun, u);
      }
    }
  }

  lemma {:induction false} ReplayKeepsOrigin(start: Workflow, us: seq<Update>)
    ensures SameOrigin(Replayed(start, us), start)
  {
    if us == [] {
    } else {
      ReplayKeepsOrigin(start, us[..|us| - 1]);
    }
  }

  lemma CommitStaysExplained(start: Workflow, sys: System, worker: nat)
    requires Explained(start, sys)
    ensures Explained(start, Step(sys, Commit(worker)))
  {
    if worker in sys.writers {
      var w := sys.writers[worker];
      var chain := w.read + [w.update];
      assert chain[..|chain| - 1] == w.read;
      ReplayKeepsOrigin(start, w.read);
      ReplayKeepsOrigin(start, chain);
      assert Replayed(start, chain) == Write(Replayed(start, w.read), w.patch);
      assert Write(sys.stored, w.patch) == Write(Replayed(start, w.read), w.patch);
    }
  }

  /**
   In any interleaving the stored workflow is what some of the updates, in the order in which they
   began and with nothing overlapping, would have produced: updates can be lost, never mixed up.
   */
  lemma {:induction false} AlwaysExplained(start: Workflow, sys: System, acts: seq<Action>)
    requires Explained(start, sys)
    ensures Explained(start, After(sys, acts))
    decreases |acts|
  {
    if acts == [] {
    } else {
      match acts[0] {
        case Begin(worker, u) => BeginStaysExplained(start, sys, worker, u);
        case Commit(worker) => CommitStaysExplained(start, sys, worker);
      }
      AlwaysExplained(start, Step(sys, acts[0]), acts[1..]);
    }
  }

  /** The named steps that are stored with the status. */
  function StepsWith(w: Workflow, names: seq<string>, status: string): set<string> {
    set k | k in names && k in w.steps && w.steps[k].status == status
  }

  function NameSet(names: seq<string>): set<string> { set k | k in names }

  lemma CountIsStepsWith(w: Workflow, names: seq<string>, status: string)
    requires w.steps.Keys == NameSet(names)
    ensures CountStatus(w.steps, status) == |StepsWith(w, names, status)|
    ensures SomeStep(w.steps, status) <==> StepsWith(w, names, status) != {}
  {
    assert (set k | k in w.steps && w.steps[k].status == status) == StepsWith(w, names, status);
    if k :| k in w.steps && w.steps[k].status == status { assert k in StepsWith(w, names, status); }
  }

  /** What a reader of the stored hash can rely on, in terms of the names the workflow was started with. */
  ghost predicate TellsSteps(w: Workflow, names: seq<string>, now: int) {
    var completed, failed := StepsWith(w, names, COMPLETED), StepsWith(w, names, FAILED);
    var n := |NameSet(names)|;
    && w.steps.Keys == NameSet(names) && w.totalSteps == |names| && w.createdAt == now
    && w.completedSteps == |completed| && w.failedSteps == |failed|
    && w.progress * n <= 100 * |completed| < (w.progress + 1) * n
    && (w.status == COMPLETED <==> w.progress == 100)
    && (w.progress == 100 <==> completed == NameSet(names))
    && (w.status == PARTIAL <==> failed != {} && completed != {})
    && (w.status == FAILED <==> failed != {} && completed == {})
    && (w.status == IN_PROGRESS <==>
          failed == {} && completed != NameSet(names) && StepsWith(w, names, IN_PROGRESS) != {})
    && w.status in [PENDING, IN_PROGRESS, COMPLETED, FAILED, PARTIAL]
  }

  lemma PercentBounds(c: nat, n: nat)
    requires n > 0
    ensures var p := 100 * c / n; p * n <= 100 * c < (p + 1) * n
  {
    var p := 100 * c / n;
    assert 100 * c == n * p + (100 * c) % n;
    assert (p + 1) * n == n * p + n;
  }

  lemma ConsistentTellsSteps(w: Workflow, names: seq<string>, now: int)
    requires names != [] && Consistent(w) && w.steps.Keys == NameSet(names)
    requires w.totalSteps == |names| && w.createdAt == now
    ensures TellsSteps(w, names, now)
  {
    assert names[0] in NameSet(names) && |w.steps| == |NameSet(names)| > 0;
    CountIsStepsWith(w, names, COMPLETED);
    CountIsStepsWith(w, names, FAILED);
    CountIsStepsWith(w, names, IN_PROGRESS);
    PercentBounds(|StepsWith(w, names, COMPLETED)|, |NameSet(names)|);
    CompletedIffAllSteps(w);
    StatusIff(w);
    assert (forall k :: k in w.steps ==> w.steps[k].status == COMPLETED)
      <==> StepsWith(w, names, COMPLETED) == NameSet(names) by {
      SubsetOfKeys(w.steps, COMPLETED);
      SubsetSize(StepsWith(w, names, COMPLETED), NameSet(names));
    }
    assert COMPLETED[0] != IN_PROGRESS[0];
  }

  /**
   After every run the stored hash tells the truth about the stored steps, lost updates or not: counts,
   the percentage cut off to a whole number, and the overall status.
   */
  lemma AlwaysConsistent(names: seq<string>, now: int, acts: seq<Action>)
    requires names != []
    ensures TellsSteps(After(Begun(Started(names, now)), acts).stored, names, now)
  {
    var start := Started(names, now);
    var sys := Begun(start);
    AlwaysExplained(start, sys, acts);
    StartedConsistentIff(names, now);
    ReplayKeepsKeys(start, After(sys, acts).history);
    var w := After(sys, acts).stored;
    assert w.steps.Keys == NameSet(names);
    ConsistentTellsSteps(w, names, now);
  }

  /** A workflow without steps is never completed: no update of it is ever written. */
  lemma {:induction false} NoStepsNeverCompletes(now: int, acts: seq<Action>)
    ensures var start := Started([], now);
            After(Begun(start), acts).stored == start && start.status == PENDING
    decreases |acts|
  {
    if acts == [] {
    } else {
      var sys := Begun(Started([], now));
      assert Step(sys, acts[0]) == sys;
      NoStepsNeverCompletes(now, acts[1..]);
    }
  }

  // ----- When an update is lost -----

  /** The stored chain is no longer than the writes, and only a read that saw every write is current. */
  ghost predicate Counted(sys: System) {
    && |sys.history| <= |sys.written|
    && forall i :: i in sys.writers ==>
         var w := sys.writers[i];
         && |w.read| <= w.seen <= |sys.written|
         && (w.seen == |sys.written| ==> w.read == sys.history)
  }

  /** The action writes although something has been written since its update read. */
  predicate WritesOver(sys: System, a: Action) {
    a.Commit? && a.worker in sys.writers && sys.writers[a.worker].seen != |sys.written|
  }

  /** No update is written between the read and the write of another. */
  ghost predicate NoOverlap(sys: System, acts: seq<Action>)
    decreases |acts|
  {
    acts == [] || (!WritesOver(sys, acts[0]) && NoOverlap(Step(sys, acts[0]), acts[1..]))
  }

  lemma StepStaysCounted(sys: System, a: Action)
    requires Counted(sys)
    ensures Counted(Step(sys, a))
    ensures sys.history == sys.written && !WritesOver(sys, a) ==> Step(sys, a).history == Step(sys, a).written
    ensures |sys.history| < |sys.written| || WritesOver(sys, a) ==> |Step(sys, a).history| < |Step(sys, a).written|
  {
  }

  /** Once an update is lost, the stored chain stays behind the writes. */
  lemma {:induction false} StaysBehind(sys: System, acts: seq<Action>)
    requires Counted(sys) && |sys.history| < |sys.written|
    ensures |After(sys, acts).history| < |After(sys, acts).written|
    decreases |acts|
  {
    if acts == [] {
    } else {
      StepStaysCounted(sys, acts[0]);
      StaysBehind(Step(sys, acts[0]), acts[1..]);
    }
  }

  lemma {:induction false} WrittenIffNoOverlap(sys: System, acts: seq<Action>)
    requires Counted(sys) && sys.history == sys.written
    ensures After(sys, acts).history == After(sys, acts).written <==> NoOverlap(sys, acts)
    decreases |acts|
  {
    if acts == [] {
    } else {
      StepStaysCounted(sys, acts[0]);
      if WritesOver(sys, acts[0]) {
        StaysBehind(Step(sys, acts[0]), acts[1..]);
      } else {
        WrittenIffNoOverlap(Step(sys, acts[0]), acts[1..]);
      }
    }
  }

  ghost predicate WritesContain(sys: System) {
    && Subsequence(sys.history, sys.written)
    && forall i :: i in sys.writers ==> Subsequence(sys.writers[i].read, sys.written)
  }

  lemma StepKeepsWrites(sys: System, a: Action)
    requires WritesContain(sys)
    ensures WritesContain(Step(sys, a))
  {
    if a.Commit? && a.worker in sys.writers {
      var w := sys.writers[a.worker];
      SubsequenceGrows(w.read, sys.written, w.update);
      forall i | i in sys.writers ensures Subsequence(sys.writers[i].read, sys.written + [w.update]) {
        SubsequenceGrows(sys.writers[i].read, sys.written, w.update);
      }
    }
  }

  lemma {:induction false} WritesAlwaysContain(sys: System, acts: seq<Action>)
    requires WritesContain(sys)
    ensures WritesContain(After(sys, acts))
    decreases |acts|
  {
    if acts == [] {
    } else {
      StepKeepsWrites(sys, acts[0]);
      WritesAlwaysContain(Step(sys, acts[0]), acts[1..]);
    }
  }

  /**
   In every run the stored workflow is what some of the written updates, in the order of the writes,
   produce.  They are all of them exactly when no update is written between the read and the write of
   another one; then the stored workflow is the replay of everything written.
   */
  lemma ChainIsAllWrittenIffNoOverlap(start: Workflow, acts: seq<Action>)
    ensures var end := After(Begun(start), acts);
            && end.stored == Replayed(start, end.history) && Subsequence(end.history, end.written)
            && (end.history == end.written <==> NoOverlap(Begun(start), acts))
            && (|end.history| == |end.written| <==> NoOverlap(Begun(start), acts))
            && (NoOverlap(Begun(start), acts) ==> end.stored == Replayed(start, end.written))
  {
    WrittenIffNoOverlap(Begun(start), acts);
    StaysCounted(Begun(start), acts);
    WritesAlwaysContain(Begun(start), acts);
    AlwaysExplained(start, Begun(start), acts);
  }

  lemma {:induction false} StaysCounted(sys: System, acts: seq<Action>)
    requires Counted(sys) && (|sys.history| == |sys.written| ==> sys.history == sys.written)
    ensures |After(sys, acts).history| == |After(sys, acts).written| ==>
              After(sys, acts).history == After(sys, acts).written
    decreases |acts|
  {
    if acts == [] {
    } else {
      StepStaysCounted(sys, acts[0]);
      StaysCounted(Step(sys, acts[0]), acts[1..]);
    }
  }

  /** Two overlapping updates: the later write wins and the other one is gone without a trace. */
  lemma OverlapLosesUpdate(start: Workflow, u: Update, v: Update)
    requires u.step in start.steps && v.step in start.steps
    ensures var acts := [Begin(0, u), Begin(1, v), Commit(0), Commit(1)];
            After(Begun(start), acts).stored == Replayed(start, [v])
  {
    var acts := [Begin(0, u), Begin(1, v), Commit(0), Commit(1)];
    var s0 := Begun(start);
    var s1 := Step(s0, acts[0]);
    var s2 := Step(s1, acts[1]);
    var s3 := Step(s2, acts[2]);
    var s4 := Step(s3, acts[3]);
    assert After(s4, []) == s4;
    assert After(s3, [acts[3]]) == s4 by { assert [acts[3]][1..] == []; }
    assert After(s2, [acts[2], acts[3]]) == s4 by { assert [acts[2], acts[3]][1..] == [acts[3]]; }
    assert After(s1, acts[1..]) == s4 by { assert acts[1..][1..] == [acts[2], acts[3]]; }
    assert After(s0, acts) == s4;
    assert Replayed(start, []) == start && [v][..0] == [];
    assert Replayed(start, [v]) == Updated(start, v);
  }

  // ----- Updates that do not overlap -----

  /** The status that `step` was last given, if any. */
  function LastStatus(us: seq<Update>, step: string): string {
    if us == [] then PENDING
    else if us[|us| - 1].step == step then us[|us| - 1].status
    else LastStatus(us[..|us| - 1], step)
  }

  lemma {:induction false} StatusesAreLast(names: seq<string>, now: int, us: seq<Update>, step: string)
    requires step in names
    ensures step in Replayed(Started(names, now), us).steps
    ensures Replayed(Started(names, now), us).steps[step].status == LastStatus(us, step)
  {
    if us == [] {
    } else {
      StatusesAreLast(names, now, us[..|us| - 1], step);
    }
  }

  lemma CountsFromStatuses(a: Steps, b: Steps, status: string)
    requires a.Keys == b.Keys && forall k :: k in a ==> a[k].status == b[k].status
    ensures CountStatus(a, status) == CountStatus(b, status)
  {
    assert (set k | k in a && a[k].status == status) == (set k | k in b && b[k].status == status);
  }

  /**
   Without overlap the counts, the percentage and the status depend on nothing but the last status
   of each step: not on the order of steps, on repeated updates, or on times.
   */
  lemma OnlyLastStatusesMatter(names: seq<string>, now: int, now': int, us: seq<Update>, us': seq<Update>)
    requires names != []
    requires forall step :: step in names ==> LastStatus(us, step) == LastStatus(us', step)
    ensures var w, w' := Replayed(Started(names, now), us), Replayed(Started(names, now'), us');
            && w.status == w'.status && w.progress == w'.progress
            && w.completedSteps == w'.completedSteps && w.failedSteps == w'.failedSteps
  {
    var start, start' := Started(names, now), Started(names, now');
    var w, w' := Replayed(start, us), Replayed(start', us');
    StartedConsistentIff(names, now);
    StartedConsistentIff(names, now');
    ReplayKeepsKeys(start, us);
    ReplayKeepsKeys(start', us');
    forall k | k in w.steps ensures k in w'.steps && w.steps[k].status == w'.steps[k].status {
      StatusesAreLast(names, now, us, k);
      StatusesAreLast(names, now', us', k);
    }
    CountsFromStatuses(w.steps, w'.steps, COMPLETED);
    CountsFromStatuses(w.steps, w'.steps, FAILED);
    assert |w.steps| == |w.steps.Keys| == |w'.steps|;
    assert (exists k :: k in w.steps && w.steps[k].status == IN_PROGRESS)
      <==> (exists k :: k in w'.steps && w'.steps[k].status == IN_PROGRESS);
  }

  // ----- Times and details of a step -----

  /** What an update of a step may do: start it, end it, or bring a result count or an error. */
  datatype Kind = Starting | Ending | Counting | Failing

  predicate Matches(u: Update, step: string, kind: Kind) {
    u.step == step
    && match kind
       case Starting => u.status == IN_PROGRESS
       case Ending => u.status in [COMPLETED, FAILED, SKIPPED]
       case Counting => u.resultCount.Some?
       case Failing => u.error.Some? && u.error.value != ""
  }

  /** The index of the first matching update. */
  function First(us: seq<Update>, step: string, kind: Kind): Option<nat> {
    if us == [] then None
    else
      var n := |us| - 1;
      var r := First(us[..n], step, kind);
      if r.Some? then r else if Matches(us[n], step, kind) then Some(n) else None
  }

  /** The index of the last matching update. */
  function Last(us: seq<Update>, step: string, kind: Kind): Option<nat> {
    if us == [] then None
    else
      var n := |us| - 1;
      if Matches(us[n], step, kind) then Some(n) else Last(us[..n], step, kind)
  }

  /** They are what they are called. */
  lemma {:induction false} FirstAndLast(us: seq<Update>, step: string, kind: Kind)
    ensures First(us, step, kind).Some? <==> Last(us, step, kind).Some?
    ensures var (r, l) := (First(us, step, kind), Last(us, step, kind));
            if r.None? then forall i :: 0 <= i < |us| ==> !Matches(us[i], step, kind)
            else && r.value <= l.value < |us| && Matches(us[r.value], step, kind) && Matches(us[l.value], step, kind)
                 && (forall i :: 0 <= i < r.value ==> !Matches(us[i], step, kind))
                 && (forall i :: l.value < i < |us| ==> !Matches(us[i], step, kind))
  {
    if us == [] {
    } else {
      var n := |us| - 1;
      FirstAndLast(us[..n], step, kind);
      assert forall i :: 0 <= i < n ==> us[..n][i] == us[i];
    }
  }

  /** The time of the update at the index, if there is one. */
  function TimeAt(us: seq<Update>, i: Option<nat>): Option<int> {
    if i.Some? && i.value < |us| then Some(us[i.value].now) else None
  }

  /** From the first start to the last end, if the step had been started by then. */
  function Duration(us: seq<Update>, step: string): Option<int> {
    var (start, end) := (First(us, step, Starting), Last(us, step, Ending));
    if start.Some? && end.Some? && start.value < end.value < |us|
    then Some(Milliseconds(us[end.value].now - us[start.value].now)) else None
  }

  function CountAt(us: seq<Update>, i: Option<nat>): Option<int> {
    if i.Some? && i.value < |us| then us[i.value].resultCount else None
  }

  function ErrorAt(us: seq<Update>, i: Option<nat>): Option<string> {
    if i.Some? && i.value < |us| then us[i.value].error else None
  }

  ghost predicate DetailsOf(s: StepData, us: seq<Update>, step: string) {
    && s.startedAt == TimeAt(us, First(us, step, Starting))
    && s.completedAt == TimeAt(us, First(us, step, Ending))
    && s.durationMs == Duration(us, step)
    && s.resultCount == CountAt(us, Last(us, step, Counting))
    && s.error == ErrorAt(us, Last(us, step, Failing))
  }

  lemma OneMore(us: seq<Update>, step: string, u: Update, kind: Kind)
    ensures First(us + [u], step, kind) == if First(us, step, kind).Some? then First(us, step, kind)
                                           else if Matches(u, step, kind) then Some(|us|) else None
    ensures Last(us + [u], step, kind) == if Matches(u, step, kind) then Some(|us|) else Last(us, step, kind)
    ensures First(us, step, kind).Some? ==> First(us, step, kind).value < |us|
    ensures Last(us, step, kind).Some? ==> Last(us, step, kind).value < |us|
  {
    assert (us + [u])[..|us|] == us;
    FirstAndLast(us, step, kind);
  }

  lemma OneMoreTimes(s: StepData, us: seq<Update>, step: string, u: Update)
    requires DetailsOf(s, us, step) && u.step == step
    ensures UpdatedStep(s, u).startedAt == TimeAt(us + [u], First(us + [u], step, Starting))
    ensures UpdatedStep(s, u).completedAt == TimeAt(us + [u], First(us + [u], step, Ending))
    ensures UpdatedStep(s, u).durationMs == Duration(us + [u], step)
  {
    OneMore(us, step, u, Starting);
    OneMore(us, step, u, Ending);
    assert COMPLETED[0] != IN_PROGRESS[0] && FAILED[0] != IN_PROGRESS[0] && SKIPPED[0] != IN_PROGRESS[0];
  }

  lemma OneMoreResult(s: StepData, us: seq<Update>, step: string, u: Update)
    requires DetailsOf(s, us, step) && u.step == step
    ensures UpdatedStep(s, u).resultCount == CountAt(us + [u], Last(us + [u], step, Counting))
    ensures UpdatedStep(s, u).error == ErrorAt(us + [u], Last(us + [u], step, Failing))
  {
    OneMore(us, step, u, Counting);
    OneMore(us, step, u, Failing);
  }

  lemma OtherUpdate(s: StepData, us: seq<Update>, step: string, u: Update)
    requires DetailsOf(s, us, step) && u.step != step
    ensures DetailsOf(s, us + [u], step)
  {
    OneMore(us, step, u, Starting);
    OneMore(us, step, u, Ending);
    OneMore(us, step, u, Counting);
    OneMore(us, step, u, Failing);
  }

  /**
   Without overlap a step keeps the time it was first started and the time it first ended, lasts from
   the first start to the last end, and shows the last result count and the last error it was given.
   */
  lemma {:induction false} StepDetails(names: seq<string>, now: int, us: seq<Update>, step: string)
    requires step in names
    ensures step in Replayed(Started(names, now), us).steps
    ensures DetailsOf(Replayed(Started(names, now), us).steps[step], us, step)
  {
    if us == [] {
    } else {
      var n := |us| - 1;
      StepDetails(names, now, us[..n], step);
      var s := Replayed(Started(names, now), us[..n]).steps[step];
      assert us == us[..n] + [us[n]];
      if us[n].step == step {
        OneMoreTimes(s, us[..n], step, us[n]);
        OneMoreResult(s, us[..n], step, us[n]);
      } else {
        OtherUpdate(s, us[..n], step, us[n]);
      }
    }
  }

  /** The hash was last updated by the last update that was written, and everything else by its start. */
  lemma {:induction false} UpdatedByLast(start: Workflow, us: seq<Update>)
    requires forall i :: 0 <= i < |us| ==> us[i].step in start.steps
    ensures Replayed(start, us).steps.Keys == start.steps.Keys
    ensures Replayed(start, us).updatedAt == if us == [] then start.updatedAt else us[|us| - 1].now
  {
    if us == [] {
    } else {
      UpdatedByLast(start, us[..|us| - 1]);
    }
  }

  /** A workflow starts with every step pending and untouched, nothing counted, at the time of its start. */
  lemma StartIsUntouched(names: seq<string>, now: int)
    ensures var w := Started(names, now);
            && w.status == PENDING && w.progress == w.completedSteps == w.failedSteps == 0
            && w.createdAt == w.updatedAt == now && w.totalSteps == |names| && w.steps.Keys == NameSet(names)
            && forall k :: k in names ==>
                 var s := w.steps[k];
                 s.status == PENDING && s.startedAt == s.completedAt == s.durationMs == s.resultCount == None
                 && s.error == None
  {
  }

  // ----- The tracker object -----

  class Tracker {
    const enabled: bool
    var hashes: map<string, Workflow>

    constructor (enabled: bool)
      ensures this.enabled == enabled && hashes == map[]
    {
      this.enabled := enabled;
      hashes := map[];
    }

    /** Starts a workflow, over whatever is stored under its id. */
    method StartWorkflow(id: string, names: seq<string>, now: int)
      modifies this
      ensures hashes == if enabled then old(hashes)[id := Started(names, now)] else old(hashes)
    {
      if !enabled {
        return;
      }
      hashes := hashes[id := Workflow(PENDING, 0, |names|, 0, 0, now, now, InitialSteps(names))];
    }

    /** An update whose two commands nothing comes between. */
    method UpdateStep(id: string, u: Update)
      modifies this
      ensures hashes == if enabled && id in old(hashes) then old(hashes)[id := Updated(old(hashes)[id], u)]
                        else old(hashes)
    {
      if !enabled {
        return;
      }
      if id !in hashes {
        return;
      }
      var state := hashes[id];
      if u.step !in state.steps {
        assert hashes[id := state] == hashes;
        return;
      }
      var steps := state.steps[u.step := UpdatedStep(state.steps[u.step], u)];
      var completed, failed := CountStatus(steps, COMPLETED), CountStatus(steps, FAILED);
      var progress := if |steps| > 0 then 100 * completed / |steps| else 0;
      var patch := Patch(OverallStatus(steps), progress, completed, failed, u.now, steps);
      hashes := hashes[id := Write(state, patch)];
    }
  }
}
