/**
 Schedules of workflow updates (core/utils/workflow_progress.py): the order of reads and writes,
 whatever the updates say.  A single run can hide a lost update, for example when another one says
 the same; a schedule that loses one shows it for some updates.
 */
module UpdateSchedules {
  import opened Basics
  import opened Options
  import opened WorkflowProgress

  datatype Move = Reads(worker: nat) | Writes(worker: nat)

  /** What the updates say, by the position of their reads; each is about a step of the workflow. */
  ghost predicate Fills(start: Workflow, s: seq<Move>, contents: seq<Update>) {
    |contents| == |s| && forall i :: 0 <= i < |contents| ==> contents[i].step in start.steps
  }

  function Act(m: Move, u: Update): Action {
    match m
    case Reads(w) => Begin(w, u)
    case Writes(w) => Commit(w)
  }

  function Acts(s: seq<Move>, contents: seq<Update>): seq<Action>
    requires |contents| == |s|
  {
    seq(|s|, i requires 0 <= i < |s| => Act(s[i], contents[i]))
  }

  // ----- The schedule alone -----

  /** An update under way: the chain it read, where it read, and how much had been written then. */
  datatype Slot = Slot(read: seq<nat>, id: nat, seen: nat)

  /** Chain and writes as positions of the reads. */
  datatype Plan = Plan(history: seq<nat>, slots: map<nat, Slot>, written: seq<nat>)

  const EMPTY: Plan := Plan([], map[], [])

  function PlanStep(p: Plan, m: Move, i: nat): Plan {
    match m
    case Reads(w) => if w in p.slots then p else p.(slots := p.slots[w := Slot(p.history, i, |p.written|)])
    case Writes(w) =>
      if w !in p.slots then p
      else
        var slot := p.slots[w];
        Plan(slot.read + [slot.id], p.slots - {w}, p.written + [slot.id])
  }

  /** The plan after the moves from position `k` on. */
  function PlanAfter(p: Plan, s: seq<Move>, k: nat): Plan
    requires k <= |s|
    decreases |s| - k
  {
    if k == |s| then p else PlanAfter(PlanStep(p, s[k], k), s, k + 1)
  }

  predicate MoveOverlaps(p: Plan, m: Move) {
    m.Writes? && m.worker in p.slots && p.slots[m.worker].seen != |p.written|
  }

  /** From position `k` on, nothing is written between the read and the write of an update. */
  predicate OverlapFree(p: Plan, s: seq<Move>, k: nat)
    requires k <= |s|
    decreases |s| - k
  {
    k == |s| || (!MoveOverlaps(p, s[k]) && OverlapFree(PlanStep(p, s[k], k), s, k + 1))
  }

  // ----- A run is its schedule, filled in -----

  predicate Within(ids: seq<nat>, n: nat) { forall i :: 0 <= i < |ids| ==> ids[i] < n }

  function Filled(contents: seq<Update>, ids: seq<nat>): (us: seq<Update>)
    requires Within(ids, |contents|)
    ensures |us| == |ids|
  {
    seq(|ids|, i requires 0 <= i < |ids| => contents[ids[i]])
  }

  ghost predicate SlotMirrors(w: Writer, slot: Slot, contents: seq<Update>) {
    && Within(slot.read, |contents|) && slot.id < |contents|
    && w.read == Filled(contents, slot.read) && w.update == contents[slot.id] && w.seen == slot.seen
  }

  ghost predicate Mirrors(start: Workflow, sys: System, p: Plan, contents: seq<Update>) {
    && sys.stored.steps.Keys == start.steps.Keys
    && Within(p.history, |contents|) && sys.history == Filled(contents, p.history)
    && Within(p.written, |contents|) && sys.written == Filled(contents, p.written)
    && sys.writers.Keys == p.slots.Keys
    && (forall w :: w in p.slots ==> SlotMirrors(sys.writers[w], p.slots[w], contents))
    && (forall w :: w in p.slots ==> sys.writers[w].patch.steps.Keys == start.steps.Keys)
  }

  lemma FilledSnoc(contents: seq<Update>, ids: seq<nat>, id: nat)
    requires Within(ids, |contents|) && id < |contents|
    ensures Within(ids + [id], |contents|)
    ensures Filled(contents, ids + [id]) == Filled(contents, ids) + [contents[id]]
  {
  }

  lemma StepMirrors(start: Workflow, sys: System, p: Plan, contents: seq<Update>, m: Move, i: nat)
    requires Mirrors(start, sys, p, contents) && i < |contents| && contents[i].step in start.steps
    ensures Mirrors(start, Step(sys, Act(m, contents[i])), PlanStep(p, m, i), contents)
    ensures WritesOver(sys, Act(m, contents[i])) <==> MoveOverlaps(p, m)
  {
    if m.Writes? && m.worker in p.slots {
      var slot := p.slots[m.worker];
      assert SlotMirrors(sys.writers[m.worker], slot, contents);
      FilledSnoc(contents, slot.read, slot.id);
      FilledSnoc(contents, p.written, slot.id);
    }
  }

  lemma {:induction false} RunMirrors(
    start: Workflow, sys: System, p: Plan, s: seq<Move>, contents: seq<Update>, k: nat)
    requires Fills(start, s, contents) && Mirrors(start, sys, p, contents) && k <= |s|
    ensures var end := After(sys, Acts(s, contents)[k..]);
            && Mirrors(start, end, PlanAfter(p, s, k), contents)
            && (NoOverlap(sys, Acts(s, contents)[k..]) <==> OverlapFree(p, s, k))
    decreases |s| - k
  {
    var acts := Acts(s, contents);
    if k == |s| {
      assert acts[k..] == [];
    } else {
      StepMirrors(start, sys, p, contents, s[k], k);
      assert acts[k..][1..] == acts[k + 1..] && acts[k..][0] == Act(s[k], contents[k]);
      RunMirrors(start, Step(sys, acts[k]), PlanStep(p, s[k], k), s, contents, k + 1);
    }
  }

  // ----- Each update is written once -----

  ghost predicate Distinct(ids: seq<nat>) {
    forall i, j :: 0 <= i < j < |ids| ==> ids[i] != ids[j]
  }

  /** Positions before `k` are written or under way, each at most once. */
  ghost predicate WrittenOnce(p: Plan, k: nat) {
    && Distinct(p.written) && Within(p.written, k)
    && (forall w :: w in p.slots ==> p.slots[w].id < k && p.slots[w].id !in p.written)
    && (forall v, w :: v in p.slots && w in p.slots && v != w ==> p.slots[v].id != p.slots[w].id)
  }

  lemma StepWritesOnce(p: Plan, m: Move, k: nat)
    requires WrittenOnce(p, k)
    ensures WrittenOnce(PlanStep(p, m, k), k + 1)
  {
  }

  lemma {:induction false} AlwaysWrittenOnce(p: Plan, s: seq<Move>, k: nat)
    requires k <= |s| && WrittenOnce(p, k)
    ensures WrittenOnce(PlanAfter(p, s, k), |s|)
    decreases |s| - k
  {
    if k == |s| {
    } else {
      StepWritesOnce(p, s[k], k);
      AlwaysWrittenOnce(PlanStep(p, s[k], k), s, k + 1);
    }
  }

  function Members(ids: seq<nat>): set<nat> { set i | 0 <= i < |ids| :: ids[i] }

  lemma {:induction false} MembersSize(ids: seq<nat>)
    ensures |Members(ids)| <= |ids|
    ensures Distinct(ids) ==> |Members(ids)| == |ids|
  {
    if ids == [] {
      assert Members(ids) == {};
    } else {
      var n := |ids| - 1;
      MembersSize(ids[..n]);
      assert Members(ids) == Members(ids[..n]) + {ids[n]};
      if Distinct(ids) { assert ids[n] !in Members(ids[..n]); }
    }
  }

  /** A shorter list misses one of distinct ids. */
  lemma MissesOne(short: seq<nat>, ids: seq<nat>) returns (id: nat)
    requires |short| < |ids| && Distinct(ids)
    ensures id in ids && id !in short
  {
    MembersSize(short);
    MembersSize(ids);
    if Members(ids) <= Members(short) { SubsetSize(Members(ids), Members(short)); }
    id :| id in Members(ids) && id !in Members(short);
  }

  // ----- A missing update shows -----

  /** Updates of one step that bring nothing, but for one that brings a result count. */
  function OneCounts(step: string, count: int, id: nat, n: nat): (contents: seq<Update>)
    ensures |contents| == n
  {
    seq(n, i => Update(step, PENDING, if i == id then Some(count) else None, None, 0))
  }

  lemma {:induction false} CountShows(
    start: Workflow, step: string, count: int, id: nat, n: nat, ids: seq<nat>)
    requires step in start.steps && Within(ids, n)
    ensures var w := Replayed(start, Filled(OneCounts(step, count, id, n), ids));
            && step in w.steps
            && w.steps[step].resultCount == if id in ids then Some(count) else start.steps[step].resultCount
  {
    if ids == [] {
    } else {
      var k := |ids| - 1;
      var contents := OneCounts(step, count, id, n);
      CountShows(start, step, count, id, n, ids[..k]);
      assert ids == ids[..k] + [ids[k]];
      assert Filled(contents, ids)[..k] == Filled(contents, ids[..k]);
    }
  }

  lemma BegunMirrors(start: Workflow, contents: seq<Update>)
    ensures Mirrors(start, Begun(start), EMPTY, contents)
  {
  }

  /** The stored workflow is what everything written produces, in the order of the writes. */
  ghost predicate KeepsAll(start: Workflow, s: seq<Move>, contents: seq<Update>)
    requires Fills(start, s, contents)
  {
    var end := After(Begun(start), Acts(s, contents));
    end.stored == Replayed(start, end.written)
  }

  lemma OverlapFreeKeepsAll(start: Workflow, s: seq<Move>, contents: seq<Update>)
    requires Fills(start, s, contents) && OverlapFree(EMPTY, s, 0)
    ensures KeepsAll(start, s, contents)
  {
    var acts := Acts(s, contents);
    assert acts[0..] == acts;
    BegunMirrors(start, contents);
    RunMirrors(start, Begun(start), EMPTY, s, contents, 0);
    ChainIsAllWrittenIffNoOverlap(start, acts);
  }

  /** With an overlap there are updates for which one that was written cannot be found in the result. */
  lemma OverlapShows(start: Workflow, s: seq<Move>, step: string) returns (contents: seq<Update>)
    requires step in start.steps && !OverlapFree(EMPTY, s, 0)
    ensures Fills(start, s, contents) && !KeepsAll(start, s, contents)
  {
    var before := start.steps[step].resultCount;
    var count := if before.Some? then before.value + 1 else 0;
    var plan := PlanAfter(EMPTY, s, 0);
    AlwaysWrittenOnce(EMPTY, s, 0);
    var id := LosesOne(start, s, step);
    contents := OneCounts(step, count, id, |s|);
    var acts := Acts(s, contents);
    assert acts[0..] == acts;
    BegunMirrors(start, contents);
    RunMirrors(start, Begun(start), EMPTY, s, contents, 0);
    ChainIsAllWrittenIffNoOverlap(start, acts);
    CountShows(start, step, count, id, |s|, plan.history);
    CountShows(start, step, count, id, |s|, plan.written);
  }

  lemma LosesOne(start: Workflow, s: seq<Move>, step: string) returns (id: nat)
    requires step in start.steps && !OverlapFree(EMPTY, s, 0)
    ensures var plan := PlanAfter(EMPTY, s, 0);
            id in plan.written && id !in plan.history
  {
    var contents := OneCounts(step, 0, 0, |s|);
    var acts := Acts(s, contents);
    assert acts[0..] == acts;
    BegunMirrors(start, contents);
    RunMirrors(start, Begun(start), EMPTY, s, contents, 0);
    ChainIsAllWrittenIffNoOverlap(start, acts);
    AlwaysWrittenOnce(EMPTY, s, 0);
    var end, plan := After(Begun(start), acts), PlanAfter(EMPTY, s, 0);
    SubsequenceIsShorter(end.history, end.written);
    id := MissesOne(plan.history, plan.written);
  }

  lemma {:induction false} SubsequenceIsShorter<T>(a: seq<T>, b: seq<T>)
    requires Subsequence(a, b)
    ensures |a| <= |b|
    decreases |b|
  {
    if a == [] {
    } else if Subsequence(a, b[..|b| - 1]) {
      SubsequenceIsShorter(a, b[..|b| - 1]);
    } else {
      SubsequenceIsShorter(a[..|a| - 1], b[..|b| - 1]);
    }
  }

  /**
   No update is lost: a schedule stores the replay of everything that was written, whatever the updates
   say, exactly when nothing is written between the read and the write of an update.
   */
  lemma NothingLostIffOverlapFree(start: Workflow, s: seq<Move>)
    requires start.steps != map[]
    ensures (forall contents :: Fills(start, s, contents) ==> KeepsAll(start, s, contents))
            <==> OverlapFree(EMPTY, s, 0)
  {
    if OverlapFree(EMPTY, s, 0) {
      forall contents | Fills(start, s, contents) ensures KeepsAll(start, s, contents) {
        OverlapFreeKeepsAll(start, s, contents);
      }
    } else {
      var step :| step in start.steps;
      var contents := OverlapShows(start, s, step);
    }
  }
}
