/**
 A migration row whose streams are still being written to (scripts/redis/migrate_redis_streams.py).
 Producers may append to the old stream and to the target between any two commands of the copy, and
 any command of the copy may fail, before or after it has taken effect.
 */
module LiveMigrations {
  import opened Streams
  import opened Migrations

  /**
   `Refused` when an id was not new to the target, `Failed` when a command failed and the old stream
   still stands, `Done` when the old stream is gone.
   */
  datatype Phase = Reading | Adding(page: seq<Entry<Fields>>) | Removing | Done | Refused | Failed

  /**
   `copied` and `foreign` are the entries that the target has from the copy and from elsewhere, and
   `barred` is the last id it had from elsewhere.  `late` collects what the old stream is given
   between the empty page and its removal, and `gone` is what the removal took away.
   */
  datatype Live = Live(
    source: Stream<Fields>, target: Stream<Fields>, cursor: nat, phase: Phase,
    copied: seq<Entry<Fields>>, foreign: seq<Entry<Fields>>, barred: nat,
    late: seq<Entry<Fields>>, gone: seq<Entry<Fields>>)

  /** A row whose old stream has been found not to be empty. */
  function Begin(source: Stream<Fields>, target: Stream<Fields>): Live
    requires source.entries != []
  {
    Live(source, target, 0, Reading, [], target.entries, target.lastId, [], [])
  }

  datatype Action =
    | ProduceOld(now: nat, fields: Fields)
    | ProduceTarget(now: nat, fields: Fields)
    | ReadPage(fate: Fate)
    | AddOne(fate: Fate)
    | Remove(fate: Fate)

  function Step(s: Live, a: Action): Live {
    match a
    case ProduceOld(now, f) =>
      var id := NextId(s.source.lastId, now);
      s.(source := s.source.Add(id, f), late := if s.phase.Removing? then s.late + [Entry(id, f)] else s.late)
    case ProduceTarget(now, f) =>
      var id := NextId(s.target.lastId, now);
      s.(target := s.target.Add(id, f), foreign := s.foreign + [Entry(id, f)], barred := id)
    case ReadPage(fate) =>
      if !s.phase.Reading? then s
      else if fate != Fine then s.(phase := Failed)
      else
        var page := Take(EntriesAfter(s.source.entries, s.cursor), PAGE);
        s.(phase := if page == [] then Removing else Adding(page))
    case AddOne(fate) =>
      if !s.phase.Adding? || s.phase.page == [] then s
      else
        var e := s.phase.page[0];
        if !s.target.CanAdd(e.id) then s.(phase := Phase.Refused)
        else if fate == FailsBefore then s.(phase := Failed)
        else
          s.(target := s.target.Add(e.id, e.fields), cursor := e.id, copied := s.copied + [e],
             phase := if fate == FailsAfter then Failed
                      else if |s.phase.page| == 1 then Reading else Adding(s.phase.page[1..]))
    case Remove(fate) =>
      if !s.phase.Removing? then s
      else if fate == FailsBefore then s.(phase := Failed)
      else s.(source := Stream([], 0), gone := s.source.entries, phase := Done)
  }

  function After(s: Live, acts: seq<Action>): Live
    decreases |acts|
  {
    if acts == [] then s else After(Step(s, acts[0]), acts[1..])
  }

  // ----- When a row ends -----

  predicate Ended(s: Live) { s.phase in [Done, Phase.Refused, Failed] }

  /** The command that comes next in the copy, and how it goes. */
  predicate Applies(s: Live, a: Action, fate: Fate) {
    match s.phase
    case Reading => a == ReadPage(fate)
    case Adding(page) => page != [] && a == AddOne(fate)
    case Removing => a == Remove(fate)
    case _ => false
  }

  /** A command that fails ends the row; what it does to the streams it has done before, or not at all. */
  lemma FailingCommandEnds(s: Live, a: Action, fate: Fate)
    requires Applies(s, a, fate) && fate != Fine
    ensures var s' := Step(s, a);
            && Ended(s')
            && (fate == FailsBefore ==> !s'.phase.Done? && s' == s.(phase := s'.phase))
            && (fate == FailsAfter ==>
                  (s'.source, s'.target) == (Step(s, Retried(a)).source, Step(s, Retried(a)).target))
  {
  }

  /** The same command, going well. */
  function Retried(a: Action): Action {
    match a
    case ReadPage(_) => ReadPage(Fine)
    case AddOne(_) => AddOne(Fine)
    case Remove(_) => Remove(Fine)
    case _ => a
  }

  /** A row that has ended does nothing more; only producers still change the streams. */
  lemma {:induction false} EndedForGood(s: Live, acts: seq<Action>)
    requires Ended(s)
    ensures var s' := After(s, acts);
            && s'.phase == s.phase && s'.copied == s.copied && s'.gone == s.gone && s'.late == s.late
            && s.source.entries <= s'.source.entries && s.target.entries <= s'.target.entries
            && ((forall a :: a in acts ==> !a.ProduceOld? && !a.ProduceTarget?) ==> s' == s)
    decreases |acts|
  {
    if acts == [] {
    } else {
      EndedForGood(Step(s, acts[0]), acts[1..]);
    }
  }

  // ----- What every run keeps -----

  /** What was copied is the first part of the old stream, and the copy stands behind it. */
  ghost predicate CopyStands(s: Live) {
    var i, es := |s.copied|, s.source.entries;
    && i <= |es| && s.copied == es[..i] && s.cursor == CursorAt(es, i)
    && match s.phase
       case Adding(page) => page != [] && i + |page| <= |es| && page == es[i..i + |page|] && s.late == []
       case Removing => s.late == es[i..]
       case Refused => i < |es| && es[i].id <= s.barred && s.late == []
       case Reading => s.late == []
       case _ => true
  }

  /** The target holds what it has from elsewhere and what was copied, and nothing else. */
  ghost predicate TargetIs(s: Live) {
    && (forall e :: e in s.target.entries <==> e in s.foreign || e in s.copied)
    && s.barred <= s.target.lastId
  }

  /** The target's last id is the last one from elsewhere or the last one copied. */
  ghost predicate LastIdIs(s: Live) {
    s.target.lastId == if s.barred > s.cursor then s.barred else s.cursor
  }

  ghost predicate Invariant(s: Live) {
    && s.source.Valid() && s.target.Valid() && TargetIs(s)
    && if s.phase.Done? then s.gone == s.copied + s.late && Sorted(s.gone)
       else CopyStands(s) && LastIdIs(s)
  }

  lemma BeginSatisfiesInvariant(source: Stream<Fields>, target: Stream<Fields>)
    requires source.Valid() && target.Valid() && source.entries != []
    ensures Invariant(Begin(source, target))
  {
  }

  lemma AddedIsValid(st: Stream<Fields>, id: nat, f: Fields)
    requires st.Valid() && id > st.lastId
    ensures st.Add(id, f).Valid()
    ensures forall e :: e in st.Add(id, f).entries <==> e in st.entries || e == Entry(id, f)
  {
    LastIn(st.entries, Entry(id, f));
  }

  lemma LastIn(es: seq<Entry<Fields>>, e: Entry<Fields>)
    ensures forall x :: x in es + [e] <==> x in es || x == e
  {
  }

  lemma ProduceOldKeeps(s: Live, now: nat, f: Fields)
    requires Invariant(s)
    ensures Invariant(Step(s, ProduceOld(now, f)))
  {
    var s' := Step(s, ProduceOld(now, f));
    AddedIsValid(s.source, NextId(s.source.lastId, now), f);
    var i := |s.copied|;
    if !s.phase.Done? {
      assert s'.source.entries[..i] == s.source.entries[..i];
      if s.phase.Adding? {
        assert s'.source.entries[i..i + |s.phase.page|] == s.source.entries[i..i + |s.phase.page|];
      }
      if s.phase.Removing? {
        assert s'.source.entries[i..] == s.source.entries[i..] + [Entry(NextId(s.source.lastId, now), f)];
      }
    }
  }

  lemma ProduceTargetKeeps(s: Live, now: nat, f: Fields)
    requires Invariant(s)
    ensures Invariant(Step(s, ProduceTarget(now, f)))
  {
    var id := NextId(s.target.lastId, now);
    AddedIsValid(s.target, id, f);
    LastIn(s.foreign, Entry(id, f));
  }

  lemma ReadPageKeeps(s: Live, fate: Fate)
    requires Invariant(s)
    ensures Invariant(Step(s, ReadPage(fate)))
  {
    if s.phase.Reading? {
      CursorContinues(s.source.entries, |s.copied|);
    }
  }

  /** The next entry of the copy lies above the cursor, so only what came from elsewhere can bar it. */
  lemma AddOneIsRefusedIff(s: Live, fate: Fate)
    requires Invariant(s) && s.phase.Adding?
    ensures Step(s, AddOne(fate)).phase.Refused? <==> s.phase.page[0].id <= s.barred
  {
    var i := |s.copied|;
    assert s.phase.page[0] == s.source.entries[i];
    assert i > 0 ==> s.source.entries[i - 1].id < s.source.entries[i].id;
  }

  lemma AddOneKeeps(s: Live, fate: Fate)
    requires Invariant(s)
    ensures Invariant(Step(s, AddOne(fate)))
  {
    if s.phase.Adding? {
      var page, i := s.phase.page, |s.copied|;
      var e := page[0];
      assert e == s.source.entries[i];
      AddOneIsRefusedIff(s, fate);
      if s.target.CanAdd(e.id) {
        AddedIsValid(s.target, e.id, e.fields);
        LastIn(s.copied, e);
        assert s.source.entries[..i + 1] == s.source.entries[..i] + [e];
        assert page[1..] == s.source.entries[i + 1..i + 1 + |page[1..]|];
      }
    }
  }

  lemma RemoveKeeps(s: Live, fate: Fate)
    requires Invariant(s)
    ensures Invariant(Step(s, Remove(fate)))
  {
    if s.phase.Removing? {
      var i, es := |s.copied|, s.source.entries;
      assert es == es[..i] + es[i..];
    }
  }

  lemma StepKeepsInvariant(s: Live, a: Action)
    requires Invariant(s)
    ensures Invariant(Step(s, a))
  {
    match a
    case ProduceOld(now, f) => ProduceOldKeeps(s, now, f);
    case ProduceTarget(now, f) => ProduceTargetKeeps(s, now, f);
    case ReadPage(fate) => ReadPageKeeps(s, fate);
    case AddOne(fate) => AddOneKeeps(s, fate);
    case Remove(fate) => RemoveKeeps(s, fate);
  }

  lemma {:induction false} InvariantAfterAnyRun(s: Live, acts: seq<Action>)
    requires Invariant(s)
    ensures Invariant(After(s, acts))
    decreases |acts|
  {
    if acts == [] {
    } else {
      StepKeepsInvariant(s, acts[0]);
      InvariantAfterAnyRun(Step(s, acts[0]), acts[1..]);
    }
  }

  // ----- What a finished migration has moved -----

  /** Nobody adds to the old stream between the empty page and its removal. */
  ghost predicate QuietAtTheEnd(s: Live, acts: seq<Action>)
    decreases |acts|
  {
    || acts == []
    || (!(s.phase.Removing? && acts[0].ProduceOld?) && QuietAtTheEnd(Step(s, acts[0]), acts[1..]))
  }

  lemma {:induction false} LateNeverShrinks(s: Live, acts: seq<Action>)
    ensures |s.late| <= |After(s, acts).late|
    decreases |acts|
  {
    if acts == [] {
    } else {
      LateNeverShrinks(Step(s, acts[0]), acts[1..]);
    }
  }

  lemma {:induction false} NothingLateIffQuiet(s: Live, acts: seq<Action>)
    requires s.late == []
    ensures After(s, acts).late == [] <==> QuietAtTheEnd(s, acts)
    decreases |acts|
  {
    if acts == [] {
    } else if s.phase.Removing? && acts[0].ProduceOld? {
      LateNeverShrinks(Step(s, acts[0]), acts[1..]);
    } else {
      NothingLateIffQuiet(Step(s, acts[0]), acts[1..]);
    }
  }

  /** A late entry has a greater id than everything copied. */
  lemma LateIsNotCopied(s: Live, e: Entry<Fields>)
    requires Invariant(s) && s.phase.Done? && e in s.late
    ensures e in s.gone && e !in s.copied
  {
    var j :| 0 <= j < |s.late| && s.late[j] == e;
    assert s.gone[|s.copied| + j] == e;
    forall i | 0 <= i < |s.copied| ensures s.copied[i] != e {
      assert s.gone[i] == s.copied[i];
    }
  }

  /**
   A migration that removes its old stream, in any interleaving with producers and whatever fails, has
   removed exactly what it copied and after it what came late.  It has moved everything exactly when
   nobody added to the old stream between the empty page and the removal.
   */
  lemma FinishedMovesAllIffQuiet(source: Stream<Fields>, target: Stream<Fields>, acts: seq<Action>)
    requires source.Valid() && target.Valid() && source.entries != []
    requires After(Begin(source, target), acts).phase.Done?
    ensures var end := After(Begin(source, target), acts);
            && end.gone == end.copied + end.late
            && (forall e :: e in end.copied ==> e in end.target.entries)
            && (end.gone == end.copied <==> QuietAtTheEnd(Begin(source, target), acts))
  {
    var end := After(Begin(source, target), acts);
    BeginSatisfiesInvariant(source, target);
    InvariantAfterAnyRun(Begin(source, target), acts);
    NothingLateIffQuiet(Begin(source, target), acts);
    assert |end.gone| == |end.copied| + |end.late|;
  }

  /**
   A removed entry is missing from the target exactly when it came late and the target does not
   happen to have an equal entry, id and all, from elsewhere.
   */
  lemma LostIffLate(source: Stream<Fields>, target: Stream<Fields>, acts: seq<Action>, e: Entry<Fields>)
    requires source.Valid() && target.Valid() && source.entries != []
    requires After(Begin(source, target), acts).phase.Done?
    requires e in After(Begin(source, target), acts).gone
    ensures var end := After(Begin(source, target), acts);
            e !in end.target.entries <==> e in end.late && e !in end.foreign
  {
    var end := After(Begin(source, target), acts);
    BeginSatisfiesInvariant(source, target);
    InvariantAfterAnyRun(Begin(source, target), acts);
    if e in end.late {
      LateIsNotCopied(end, e);
    }
  }

  // ----- What was there at the start -----

  /** The old stream begins with what it held at the start, and is removed only when all of that is copied. */
  ghost predicate StartIsKept(s: Live, start: seq<Entry<Fields>>) {
    if s.phase.Done? then start <= s.copied
    else start <= s.source.entries && (s.phase.Removing? ==> start <= s.copied)
  }

  /** The page that ends the copy is empty only when everything there is copied. */
  lemma ReadKeepsStart(s: Live, fate: Fate, start: seq<Entry<Fields>>)
    requires Invariant(s) && StartIsKept(s, start)
    ensures StartIsKept(Step(s, ReadPage(fate)), start)
  {
    if s.phase.Reading? && fate == Fine {
      var es, i := s.source.entries, |s.copied|;
      CursorContinues(es, i);
      if Take(es[i..], PAGE) == [] { assert es[..i] == es; }
    }
  }

  lemma StepKeepsStart(s: Live, a: Action, start: seq<Entry<Fields>>)
    requires Invariant(s) && StartIsKept(s, start)
    ensures StartIsKept(Step(s, a), start)
  {
    if a.ReadPage? { ReadKeepsStart(s, a.fate, start); }
  }

  lemma {:induction false} StartIsAlwaysKept(s: Live, acts: seq<Action>, start: seq<Entry<Fields>>)
    requires Invariant(s) && StartIsKept(s, start)
    ensures Invariant(After(s, acts)) && StartIsKept(After(s, acts), start)
    decreases |acts|
  {
    if acts == [] {
    } else {
      StepKeepsInvariant(s, acts[0]);
      StepKeepsStart(s, acts[0], start);
      StartIsAlwaysKept(Step(s, acts[0]), acts[1..], start);
    }
  }

  /**
   What the old stream held when the row began is never lost, whoever writes to the streams meanwhile
   and whichever commands fail: at any time it is all in the old stream or all in the target.
   */
  lemma NothingOldIsLost(source: Stream<Fields>, target: Stream<Fields>, acts: seq<Action>)
    requires source.Valid() && target.Valid() && source.entries != []
    ensures var end := After(Begin(source, target), acts);
            || (forall e :: e in source.entries ==> e in end.source.entries)
            || (forall e :: e in source.entries ==> e in end.target.entries)
  {
    BeginSatisfiesInvariant(source, target);
    StartIsAlwaysKept(Begin(source, target), acts, source.entries);
  }

  // ----- Rows that cannot be moved any more -----

  /** The first id of the old stream is not new to the target, and the row has copied nothing. */
  ghost predicate Hopeless(s: Live) {
    && Invariant(s) && s.copied == [] && s.source.entries != []
    && s.source.entries[0].id <= s.target.lastId
    && (s.phase.Reading? || s.phase.Adding? || s.phase.Refused? || s.phase.Failed?)
  }

  lemma StepStaysHopeless(s: Live, a: Action)
    requires Hopeless(s)
    ensures Hopeless(Step(s, a))
  {
    StepKeepsInvariant(s, a);
    if a.ReadPage? && s.phase.Reading? {
      CursorContinues(s.source.entries, 0);
    }
  }

  /**
   A row whose first id is not new to the target is never moved, and nothing of it is ever copied,
   whatever producers and failures do: they only raise the target's last id.
   */
  lemma {:induction false} HopelessForGood(s: Live, acts: seq<Action>)
    requires Hopeless(s)
    ensures Hopeless(After(s, acts)) && !After(s, acts).phase.Done?
    decreases |acts|
  {
    if acts == [] {
    } else {
      StepStaysHopeless(s, acts[0]);
      HopelessForGood(Step(s, acts[0]), acts[1..]);
    }
  }

  /**
   And every row that was refused, or that failed with anything copied, is such a row when it is tried
   again: it has to be finished by hand.
   */
  lemma CutShortIsHopeless(source: Stream<Fields>, target: Stream<Fields>, acts: seq<Action>, again: seq<Action>)
    requires source.Valid() && target.Valid() && source.entries != []
    requires var end := After(Begin(source, target), acts);
             end.phase.Refused? || (end.phase.Failed? && end.copied != [])
    ensures var end := After(Begin(source, target), acts);
            && end.source.entries != []
            && var retry := After(Begin(end.source, end.target), again);
               !retry.phase.Done? && retry.copied == []
  {
    var end := After(Begin(source, target), acts);
    BeginSatisfiesInvariant(source, target);
    InvariantAfterAnyRun(Begin(source, target), acts);
    var i, es := |end.copied|, end.source.entries;
    assert i > 0 ==> es[0].id <= es[i - 1].id;
    assert es != [] && es[0].id <= end.target.lastId;
    BeginSatisfiesInvariant(end.source, end.target);
    HopelessForGood(Begin(end.source, end.target), again);
  }

  // ----- Such runs exist -----

  lemma {:induction false} AfterConcat(s: Live, a: seq<Action>, b: seq<Action>)
    ensures After(s, a + b) == After(After(s, a), b)
    decreases |a|
  {
    if a == [] {
      assert a + b == b;
    } else {
      assert (a + b)[1..] == a[1..] + b;
      AfterConcat(Step(s, a[0]), a[1..], b);
    }
  }

  lemma AfterOne(s: Live, a: Action, rest: seq<Action>)
    ensures After(s, [a] + rest) == After(Step(s, a), rest)
  {
    assert ([a] + rest)[1..] == rest;
  }

  /** Left alone, a copy whose next entries nothing bars comes to the empty page. */
  lemma {:induction false} ReachesRemoval(s: Live) returns (acts: seq<Action>)
    requires Invariant(s) && (s.phase.Reading? || s.phase.Adding?)
    requires forall i :: |s.copied| <= i < |s.source.entries| ==> s.source.entries[i].id > s.barred
    ensures var end := After(s, acts);
            && Invariant(end) && end.phase.Removing? && end.late == []
            && end.source == s.source && end.foreign == s.foreign
    decreases |s.source.entries| - |s.copied|, if s.phase.Reading? then 1 else 0
  {
    var a := if s.phase.Reading? then ReadPage(Fine) else AddOne(Fine);
    var s' := Step(s, a);
    StepKeepsInvariant(s, a);
    if s.phase.Reading? {
      CursorContinues(s.source.entries, |s.copied|);
    } else {
      AddOneIsRefusedIff(s, Fine);
      assert s.phase.page[0] == s.source.entries[|s.copied|];
    }
    if s'.phase.Removing? {
      acts := [a] + [];
      AfterOne(s, a, []);
    } else {
      var rest := ReachesRemoval(s');
      acts := [a] + rest;
      AfterOne(s, a, rest);
    }
  }

  lemma RemovalTakesLate(s: Live, now: nat, f: Fields)
    requires Invariant(s) && s.phase.Removing? && s.late == []
    requires now > s.source.lastId && forall e :: e in s.foreign ==> e.id < now
    ensures var e, end := Entry(now, f), Step(Step(s, ProduceOld(now, f)), Remove(Fine));
            && Invariant(end) && end.phase.Done? && e in end.gone && e !in end.target.entries
            && end.source.entries == []
  {
    var mid := Step(s, ProduceOld(now, f));
    StepKeepsInvariant(s, ProduceOld(now, f));
    StepKeepsInvariant(mid, Remove(Fine));
    assert mid.late == [Entry(now, f)];
    LateIsNotCopied(Step(mid, Remove(Fine)), Entry(now, f));
  }

  /**
   The loss is within reach of every row that can be moved at all: there is a run in which a producer
   is given an id for its entry, the migration finishes, and the entry is in neither stream.
   */
  lemma LateEntryIsLost(source: Stream<Fields>, target: Stream<Fields>, f: Fields)
    returns (acts: seq<Action>, e: Entry<Fields>)
    requires source.Valid() && target.Valid()
    requires source.entries != [] && source.entries[0].id > target.lastId
    ensures var end := After(Begin(source, target), acts);
            && end.phase.Done? && e.fields == f && e in end.gone
            && e !in end.source.entries && e !in end.target.entries
  {
    var s := Begin(source, target);
    BeginSatisfiesInvariant(source, target);
    forall i | 0 <= i < |source.entries| ensures source.entries[i].id > s.barred {
      assert source.entries[0].id <= source.entries[i].id;
    }
    var before := ReachesRemoval(s);
    var ready := After(s, before);
    var now := source.lastId + target.lastId + 1;
    e := Entry(now, f);
    RemovalTakesLate(ready, now, f);
    var last := [ProduceOld(now, f)] + ([Remove(Fine)] + []);
    acts := before + last;
    AfterConcat(s, before, last);
    AfterOne(ready, ProduceOld(now, f), [Remove(Fine)] + []);
    AfterOne(Step(ready, ProduceOld(now, f)), Remove(Fine), []);
  }

  lemma FirstPage(es: seq<Entry<Fields>>)
    requires Sorted(es) && es != [] && forall j :: 0 <= j < |es| ==> es[j].id > 0
    ensures EntriesAfter(es, 0) == es && Take(es, PAGE) != []
  {
    CursorContinues(es, 0);
    assert es[0..] == es;
  }

  lemma PageOfStart(source: Stream<Fields>, target: Stream<Fields>)
    requires source.Valid() && target.Valid() && source.entries != []
    ensures var s := Begin(source, target);
            Step(s, ReadPage(Fine)) == s.(phase := Adding(Take(source.entries, PAGE)))
  {
    FirstPage(source.entries);
  }

  /**
   A single failing command is enough to cut a copy short, on every row that can be moved: its first
   XADD fails after it has taken effect.  The streams are then as `Migrations` has them with one entry
   copied.
   */
  lemma FailureCutsShort(db: Database, from: string, to: string)
    requires ValidDatabase(db) && from != to && EntriesOf(db, from) != []
    requires EntriesOf(db, from)[0].id > LastId(db, to)
    ensures var end := After(Begin(StreamOf(db, from), StreamOf(db, to)), [ReadPage(Fine), AddOne(FailsAfter)]);
            && end.phase.Failed? && end.copied == [EntriesOf(db, from)[0]] && end.source == db[from]
            && db[to := end.target] == Copied(db, from, to, 1)
  {
    var source, target := StreamOf(db, from), StreamOf(db, to);
    var s, acts := Begin(source, target), [ReadPage(Fine), AddOne(FailsAfter)];
    PageOfStart(source, target);
    AfterTwo(s, acts[0], acts[1]);
    var e := source.entries[0];
    assert EntriesOf(db, from)[..1] == [e] && [] + [e] == [e];
  }

  /** So is a single message to the target, on every such row with at least two entries. */
  lemma ProducerCutsShort(source: Stream<Fields>, target: Stream<Fields>, f: Fields)
    requires source.Valid() && target.Valid() && |source.entries| >= 2
    requires source.entries[0].id > target.lastId
    ensures var acts := [ReadPage(Fine), AddOne(Fine)] + [ProduceTarget(source.lastId, f), AddOne(Fine)];
            var end := After(Begin(source, target), acts);
            end.phase.Refused? && end.copied == [source.entries[0]] && end.source == source
  {
    var first, second := [ReadPage(Fine), AddOne(Fine)], [ProduceTarget(source.lastId, f), AddOne(Fine)];
    var s0 := Begin(source, target);
    AfterConcat(s0, first, second);
    PageOfStart(source, target);
    var s1 := Step(s0, first[0]);
    var s2 := Step(s1, first[1]);
    AfterTwo(s0, first[0], first[1]);
    assert s2.copied == [source.entries[0]] by { assert [] + [source.entries[0]] == [source.entries[0]]; }
    var s3 := Step(s2, second[0]);
    AfterTwo(s2, second[0], second[1]);
    assert s2.phase.Adding? && s2.phase.page[0] == source.entries[1];
    assert s3.target.lastId >= source.lastId >= source.entries[1].id;
  }

  lemma AfterTwo(s: Live, a: Action, b: Action)
    ensures After(s, [a, b]) == Step(Step(s, a), b)
  {
    assert [a, b][1..] == [b] && [b][1..] == [];
    assert After(Step(s, a), [b]) == Step(Step(s, a), b);
  }
}
