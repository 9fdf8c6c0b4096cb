/**
 Any number of requeuers of one dead letter queue (core/dlq.py), each a read, an add and a delete
 that may fail, interleaved with each other, with failed messages that are sent to the queue and
 with producers that write to the source stream.
 */
module Requeuers {
  import opened Options
  import opened Streams
  import opened DeadLetters

  datatype Phase = Idle | Holding(id: nat, message: Parsed) | Added(id: nat)

  /**
   `stored` remembers everything the dead letter queue ever held, and `copies` which entries of the
   source stream were added for which dead letter.
   */
  datatype System = System(
    queues: Queues, phases: map<nat, Phase>, stored: map<nat, Stored>, copies: map<nat, set<nat>>)
  {
    function PhaseOf(r: nat): Phase { if r in phases then phases[r] else Idle }

    function CopiesOf(id: nat): set<nat> { if id in copies then copies[id] else {} }

    /** The message that a read of the dead letter gets hold of now. */
    function Readable(id: nat): Option<Parsed> {
      match Find(queues.dlq.entries, id)
      case None => None
      case Some(f) => MessageOf(f)
    }
  }

  datatype Action =
    | Send(now: nat, fields: Stored, fate: Fate)
    | Produce(now: nat, message: Message)
    | Read(requeuer: nat, id: nat, fate: Fate)
    | Add(requeuer: nat, now: nat, fate: Fate)
    | Delete(requeuer: nat, fate: Fate)

  function Step(sys: System, a: Action): System {
    var q := sys.queues;
    match a
    case Send(now, fields, fate) =>
      var id := NextId(q.dlq.lastId, now);
      if fate == FailsBefore then sys
      else sys.(queues := q.(dlq := q.dlq.Add(id, fields)), stored := sys.stored[id := fields])
    case Produce(now, message) =>
      sys.(queues := q.(source := q.source.Add(NextId(q.source.lastId, now), message)))
    case Read(r, id, fate) =>
      if sys.PhaseOf(r) != Idle || fate != Fine || sys.Readable(id).None? then sys
      else sys.(phases := sys.phases[r := Holding(id, sys.Readable(id).value)])
    case Add(r, now, fate) =>
      (match sys.PhaseOf(r)
       case Holding(id, m) =>
         if !Storable(m) || fate == FailsBefore then sys.(phases := sys.phases[r := Idle])
         else
           var added := NextId(q.source.lastId, now);
           sys.(queues := q.(source := q.source.Add(added, m.fields)),
                phases := sys.phases[r := if fate == Fine then Added(id) else Idle],
                copies := sys.copies[id := sys.CopiesOf(id) + {added}])
       case _ => sys)
    case Delete(r, fate) =>
      (match sys.PhaseOf(r)
       case Added(id) =>
         sys.(queues := if fate == FailsBefore then q else q.(dlq := q.dlq.Delete(id)),
              phases := sys.phases[r := Idle])
       case _ => sys)
  }

  function After(sys: System, actions: seq<Action>): System
    decreases |actions|
  {
    if actions == [] then sys else After(Step(sys, actions[0]), actions[1..])
  }

  // ----- Nothing is lost -----

  ghost predicate InDlq(q: Queues, id: nat, f: Stored) { Entry(id, f) in q.dlq.entries }

  /** Entry `c` of the source stream holds the dead letter's message. */
  ghost predicate IsCopy(q: Queues, c: nat, f: Stored) {
    match MessageOf(f)
    case Some(Object(fields)) => Entry(c, fields) in q.source.entries
    case _ => false
  }

  /** Every dead letter is in the queue or has a copy of its own, and the queue holds nothing else. */
  ghost predicate Kept(sys: System) {
    && (forall id :: id in sys.stored ==>
          id <= sys.queues.dlq.lastId && (InDlq(sys.queues, id, sys.stored[id]) || sys.CopiesOf(id) != {}))
    && (forall e :: e in sys.queues.dlq.entries ==> e.id in sys.stored && sys.stored[e.id] == e.fields)
  }

  /** Copies are entries with the right message that came after `base`, and no two letters share one. */
  ghost predicate CopiesAreOwn(sys: System, base: nat) {
    && (forall id :: id in sys.copies ==> id in sys.stored)
    && (forall id, c :: id in sys.copies && c in sys.copies[id] ==>
          base < c <= sys.queues.source.lastId && IsCopy(sys.queues, c, sys.stored[id]))
    && (forall a, b :: a in sys.copies && b in sys.copies && a != b ==> sys.copies[a] !! sys.copies[b])
  }

  ghost predicate PhaseInvariant(sys: System, p: Phase) {
    match p
    case Idle => true
    case Holding(id, m) => id in sys.stored && MessageOf(sys.stored[id]) == Some(m)
    case Added(id) => id in sys.stored && sys.CopiesOf(id) != {}
  }

  ghost predicate PhasesHold(sys: System) {
    forall r :: r in sys.phases ==> PhaseInvariant(sys, sys.phases[r])
  }

  ghost predicate Invariant(sys: System, base: nat) {
    && sys.queues.Valid() && base <= sys.queues.source.lastId
    && Kept(sys) && CopiesAreOwn(sys, base) && PhasesHold(sys)
  }

  function StoredIn(es: seq<Entry<Stored>>): map<nat, Stored> {
    if es == [] then map[] else StoredIn(es[..|es| - 1])[es[|es| - 1].id := es[|es| - 1].fields]
  }

  /** `m` records exactly the entries. */
  ghost predicate Records(m: map<nat, Stored>, es: seq<Entry<Stored>>) {
    && (forall id :: id in m ==> Entry(id, m[id]) in es)
    && (forall e :: e in es ==> e.id in m && m[e.id] == e.fields)
  }

  lemma RecordsOneMore(m: map<nat, Stored>, es: seq<Entry<Stored>>, e: Entry<Stored>)
    requires Records(m, es) && forall x :: x in es ==> x.id != e.id
    ensures Records(m[e.id := e.fields], es + [e])
  {
    LastIn(es, e);
  }

  lemma {:induction false} StoredInExact(es: seq<Entry<Stored>>)
    requires Sorted(es)
    ensures Records(StoredIn(es), es)
  {
    if es == [] {
    } else {
      var n := |es| - 1;
      StoredInExact(es[..n]);
      assert es == es[..n] + [es[n]];
      forall e | e in es[..n] ensures e.id != es[n].id {
        var i :| 0 <= i < n && es[..n][i] == e;
      }
      RecordsOneMore(StoredIn(es[..n]), es[..n], es[n]);
    }
  }

  /** Two streams that nobody works on yet: whatever the source holds so far is no copy. */
  function Start(q: Queues): System { System(q, map[], StoredIn(q.dlq.entries), map[]) }

  lemma StartSatisfiesInvariant(q: Queues)
    requires q.Valid()
    ensures Invariant(Start(q), q.source.lastId)
  {
    StoredInExact(q.dlq.entries);
    forall id | id in StoredIn(q.dlq.entries) ensures id <= q.dlq.lastId {
      var i :| 0 <= i < |q.dlq.entries| && q.dlq.entries[i] == Entry(id, StoredIn(q.dlq.entries)[id]);
    }
  }

  /** Nothing on record is forgotten, and nothing leaves the source stream. */
  ghost predicate Extends(sys: System, sys': System) {
    && (forall id :: id in sys.stored ==> id in sys'.stored && sys'.stored[id] == sys.stored[id])
    && (forall id :: id in sys.copies ==> id in sys'.copies && sys.copies[id] <= sys'.copies[id])
    && (forall e :: e in sys.queues.source.entries ==> e in sys'.queues.source.entries)
    && sys.queues.source.lastId <= sys'.queues.source.lastId
  }

  lemma CopyStays(q: Queues, q': Queues, c: nat, f: Stored)
    requires IsCopy(q, c, f) && forall e :: e in q.source.entries ==> e in q'.source.entries
    ensures IsCopy(q', c, f)
  {
  }

  lemma CopiesStayOwn(sys: System, sys': System, base: nat)
    requires CopiesAreOwn(sys, base) && Extends(sys, sys') && sys'.copies == sys.copies
    ensures CopiesAreOwn(sys', base)
  {
    forall id, c | id in sys.copies && c in sys.copies[id]
      ensures base < c <= sys'.queues.source.lastId && IsCopy(sys'.queues, c, sys'.stored[id])
    {
      CopyStays(sys.queues, sys'.queues, c, sys.stored[id]);
    }
  }

  lemma OneStaysSound(sys: System, sys': System, p: Phase)
    requires PhaseInvariant(sys, p) && Extends(sys, sys')
    ensures PhaseInvariant(sys', p)
  {
  }

  lemma PhasesStay(sys: System, sys': System, r: nat, p: Phase)
    requires PhasesHold(sys) && Extends(sys, sys')
    requires sys'.phases == sys.phases[r := p] && PhaseInvariant(sys', p)
    ensures PhasesHold(sys')
  {
    forall k | k in sys'.phases ensures PhaseInvariant(sys', sys'.phases[k]) {
      if k != r { OneStaysSound(sys, sys', sys.phases[k]); }
    }
  }

  lemma SamePhasesStay(sys: System, sys': System)
    requires PhasesHold(sys) && Extends(sys, sys') && sys'.phases == sys.phases
    ensures PhasesHold(sys')
  {
    forall k | k in sys.phases ensures PhaseInvariant(sys', sys.phases[k]) {
      OneStaysSound(sys, sys', sys.phases[k]);
    }
  }

  /** Letters stay kept while the queue stands and copies only grow. */
  lemma StaysKept(sys: System, sys': System)
    requires Kept(sys) && Extends(sys, sys') && sys'.queues.dlq == sys.queues.dlq && sys'.stored == sys.stored
    ensures Kept(sys')
  {
    forall id | id in sys.stored ensures InDlq(sys'.queues, id, sys.stored[id]) || sys'.CopiesOf(id) != {} {
      assert InDlq(sys.queues, id, sys.stored[id]) || sys.CopiesOf(id) != {};
      assert sys.CopiesOf(id) <= sys'.CopiesOf(id);
    }
  }

  lemma LastIn<F>(es: seq<Entry<F>>, e: Entry<F>)
    ensures forall x :: x in es + [e] <==> x in es || x == e
  {
  }

  lemma KeptAfterSend(sys: System, sys': System, id: nat, fields: Stored)
    requires Kept(sys) && id > sys.queues.dlq.lastId
    requires sys'.queues.dlq == sys.queues.dlq.Add(id, fields)
    requires sys'.stored == sys.stored[id := fields] && sys'.copies == sys.copies
    ensures Kept(sys')
  {
    LastIn(sys.queues.dlq.entries, Entry(id, fields));
    forall k | k in sys'.stored ensures InDlq(sys'.queues, k, sys'.stored[k]) || sys'.CopiesOf(k) != {} {
      if k != id { assert InDlq(sys.queues, k, sys.stored[k]) || sys.CopiesOf(k) != {}; }
    }
  }

  lemma SendKeepsInvariant(sys: System, base: nat, now: nat, fields: Stored, fate: Fate)
    requires Invariant(sys, base) && fate != FailsBefore
    ensures Invariant(Step(sys, Send(now, fields, fate)), base)
  {
    var sys' := Step(sys, Send(now, fields, fate));
    var id := NextId(sys.queues.dlq.lastId, now);
    AddKeepsValid(sys.queues.dlq, now, fields);
    assert id !in sys.stored;
    KeptAfterSend(sys, sys', id, fields);
    CopiesStayOwn(sys, sys', base);
    SamePhasesStay(sys, sys');
  }

  /** An entry appended to the source stream disturbs nothing. */
  lemma SourceGrows(sys: System, base: nat, now: nat, message: Message)
    requires Invariant(sys, base)
    ensures Invariant(Step(sys, Produce(now, message)), base)
    ensures Extends(sys, Step(sys, Produce(now, message)))
    ensures Entry(NextId(sys.queues.source.lastId, now), message)
         in Step(sys, Produce(now, message)).queues.source.entries
  {
    var sys' := Step(sys, Produce(now, message));
    AddKeepsValid(sys.queues.source, now, message);
    LastIn(sys.queues.source.entries, Entry(NextId(sys.queues.source.lastId, now), message));
    StaysKept(sys, sys');
    CopiesStayOwn(sys, sys', base);
    SamePhasesStay(sys, sys');
  }

  /** A copy above every id of the source stream is no letter's copy yet. */
  lemma NewCopyIsOwn(sys: System, sys': System, base: nat, id: nat, c: nat)
    requires CopiesAreOwn(sys, base) && id in sys.stored && base <= sys.queues.source.lastId
    requires sys'.stored == sys.stored && sys'.copies == sys.copies[id := sys.CopiesOf(id) + {c}]
    requires c > sys.queues.source.lastId && IsCopy(sys'.queues, c, sys.stored[id]) && c <= sys'.queues.source.lastId
    requires forall e :: e in sys.queues.source.entries ==> e in sys'.queues.source.entries
    ensures CopiesAreOwn(sys', base)
  {
    forall k, x | k in sys'.copies && x in sys'.copies[k]
      ensures base < x <= sys'.queues.source.lastId && IsCopy(sys'.queues, x, sys'.stored[k])
    {
      if k != id || x != c {
        assert k in sys.copies && x in sys.copies[k];
        CopyStays(sys.queues, sys'.queues, x, sys.stored[k]);
      }
    }
    forall k | k in sys.copies ensures c !in sys.copies[k] {
    }
  }

  lemma HeldIsCopied(q: Queues, c: nat, f: Stored, m: Parsed)
    requires MessageOf(f) == Some(m) && m.Object? && Entry(c, m.fields) in q.source.entries
    ensures IsCopy(q, c, f)
  {
  }

  /** The copy that an effective add makes is new, so it is no other letter's copy. */
  lemma CopyKeepsInvariant(sys: System, base: nat, r: nat, now: nat, fate: Fate)
    requires Invariant(sys, base) && fate != FailsBefore
    requires sys.PhaseOf(r).Holding? && Storable(sys.PhaseOf(r).message)
    ensures Invariant(Step(sys, Add(r, now, fate)), base)
  {
    var Holding(id, m) := sys.PhaseOf(r);
    assert PhaseInvariant(sys, sys.phases[r]);
    var mid, sys' := Step(sys, Produce(now, m.fields)), Step(sys, Add(r, now, fate));
    SourceGrows(sys, base, now, m.fields);
    assert sys'.queues == mid.queues;
    var added := NextId(sys.queues.source.lastId, now);
    HeldIsCopied(sys'.queues, added, sys.stored[id], m);
    NewCopyIsOwn(sys, sys', base, id, added);
    assert Extends(sys, sys');
    StaysKept(sys, sys');
    PhasesStay(sys, sys', r, sys'.phases[r]);
  }

  lemma KeptAfterDelete(sys: System, sys': System, id: nat)
    requires Kept(sys) && sys.CopiesOf(id) != {}
    requires sys'.queues.dlq == sys.queues.dlq.Delete(id)
    requires sys'.stored == sys.stored && sys'.copies == sys.copies
    ensures Kept(sys')
  {
    WithoutExact(sys.queues.dlq.entries, id);
    forall k | k in sys.stored ensures InDlq(sys'.queues, k, sys.stored[k]) || sys'.CopiesOf(k) != {} {
      assert InDlq(sys.queues, k, sys.stored[k]) || sys.CopiesOf(k) != {};
    }
    forall e | e in sys'.queues.dlq.entries ensures e.id in sys.stored && sys.stored[e.id] == e.fields {
      KeptIsOriginal(sys.queues.dlq.entries, id, e);
    }
  }

  lemma DeletionKeepsInvariant(sys: System, base: nat, r: nat, fate: Fate)
    requires Invariant(sys, base) && sys.PhaseOf(r).Added? && fate != FailsBefore
    ensures Invariant(Step(sys, Delete(r, fate)), base)
  {
    var id, sys' := sys.PhaseOf(r).id, Step(sys, Delete(r, fate));
    assert PhaseInvariant(sys, sys.phases[r]);
    DeleteKeepsValid(sys.queues.dlq, id);
    KeptAfterDelete(sys, sys', id);
    CopiesStayOwn(sys, sys', base);
    PhasesStay(sys, sys', r, Idle);
  }

  lemma ReadStepKeepsInvariant(sys: System, base: nat, r: nat, id: nat, fate: Fate)
    requires Invariant(sys, base)
    ensures Invariant(Step(sys, Read(r, id, fate)), base)
  {
    var sys' := Step(sys, Read(r, id, fate));
    if sys' != sys {
      FindExact(sys.queues.dlq.entries, id);
      assert Entry(id, Find(sys.queues.dlq.entries, id).value) in sys.queues.dlq.entries;
      StaysKept(sys, sys');
      CopiesStayOwn(sys, sys', base);
      PhasesStay(sys, sys', r, sys'.phases[r]);
    }
  }

  /** A requeuer that gives up changes nothing but its own phase. */
  lemma GivingUpKeepsInvariant(sys: System, base: nat, r: nat)
    requires Invariant(sys, base)
    ensures Invariant(sys.(phases := sys.phases[r := Idle]), base)
  {
    var sys' := sys.(phases := sys.phases[r := Idle]);
    StaysKept(sys, sys');
    CopiesStayOwn(sys, sys', base);
    PhasesStay(sys, sys', r, Idle);
  }

  lemma StepKeepsInvariant(sys: System, base: nat, a: Action)
    requires Invariant(sys, base)
    ensures Invariant(Step(sys, a), base)
  {
    match a
    case Send(now, fields, fate) => if fate != FailsBefore { SendKeepsInvariant(sys, base, now, fields, fate); }
    case Produce(now, message) => SourceGrows(sys, base, now, message);
    case Read(r, id, fate) => ReadStepKeepsInvariant(sys, base, r, id, fate);
    case Add(r, now, fate) =>
      if sys.PhaseOf(r).Holding? {
        if Storable(sys.PhaseOf(r).message) && fate != FailsBefore {
          CopyKeepsInvariant(sys, base, r, now, fate);
        } else {
          GivingUpKeepsInvariant(sys, base, r);
        }
      }
    case Delete(r, fate) =>
      if sys.PhaseOf(r).Added? {
        if fate == FailsBefore {
          GivingUpKeepsInvariant(sys, base, r);
        } else {
          DeletionKeepsInvariant(sys, base, r, fate);
        }
      }
  }

  /** What was stored once stays on record. */
  lemma StepForgetsNothing(sys: System, base: nat, a: Action, id: nat)
    requires Invariant(sys, base) && id in sys.stored
    ensures id in Step(sys, a).stored && Step(sys, a).stored[id] == sys.stored[id]
  {
  }

  lemma {:induction false} InvariantAfterAnyRun(sys: System, base: nat, actions: seq<Action>)
    requires Invariant(sys, base)
    ensures Invariant(After(sys, actions), base)
    decreases |actions|
  {
    if actions == [] {
    } else {
      StepKeepsInvariant(sys, base, actions[0]);
      InvariantAfterAnyRun(Step(sys, actions[0]), base, actions[1..]);
    }
  }

  lemma {:induction false} NothingForgotten(sys: System, base: nat, actions: seq<Action>, id: nat)
    requires Invariant(sys, base) && id in sys.stored
    ensures id in After(sys, actions).stored && After(sys, actions).stored[id] == sys.stored[id]
    decreases |actions|
  {
    if actions == [] {
    } else {
      StepKeepsInvariant(sys, base, actions[0]);
      StepForgetsNothing(sys, base, actions[0], id);
      NothingForgotten(Step(sys, actions[0]), base, actions[1..], id);
    }
  }

  /** Some member of a set. */
  ghost function Pick(s: set<nat>): (x: nat)
    requires s != {}
    ensures x in s
  {
    var x :| x in s; x
  }

  /**
   Conservation, whatever the interleaving and whichever commands fail: of the dead letters that the
   queue ever held, those no longer in it have been added to the source stream one by one.  Each has
   an entry there with its own message that was not there before and that stands for no other one,
   however many letters carry the same message.
   */
  lemma NothingLost(sys: System, base: nat, actions: seq<Action>) returns (own: map<nat, nat>)
    requires Invariant(sys, base)
    ensures var end := After(sys, actions);
            && (forall id :: id in sys.stored ==> id in end.stored && end.stored[id] == sys.stored[id])
            && (forall id :: id in end.stored ==> InDlq(end.queues, id, end.stored[id]) || id in own)
            && (forall id :: id in own ==>
                  id in end.stored && own[id] > base && IsCopy(end.queues, own[id], end.stored[id]))
            && (forall a, b :: a in own && b in own && a != b ==> own[a] != own[b])
  {
    InvariantAfterAnyRun(sys, base, actions);
    var end := After(sys, actions);
    own := map id | id in end.copies && end.copies[id] != {} :: Pick(end.copies[id]);
    forall id | id in sys.stored ensures id in end.stored && end.stored[id] == sys.stored[id] {
      NothingForgotten(sys, base, actions, id);
    }
    forall id | id in end.stored ensures InDlq(end.queues, id, end.stored[id]) || id in own {
      assert InDlq(end.queues, id, end.stored[id]) || end.CopiesOf(id) != {};
    }
    forall a, b | a in own && b in own && a != b ensures own[a] != own[b] {
      assert end.copies[a] !! end.copies[b] && own[a] in end.copies[a];
    }
  }

  // ----- At most one copy -----

  /** The action is a read that gets hold of the letter. */
  predicate Gets(sys: System, a: Action, id: nat) {
    a.Read? && a.id == id && a.fate == Fine && sys.PhaseOf(a.requeuer) == Idle && sys.Readable(id).Some?
  }

  /** The action is an add of the letter by a requeuer that holds it. */
  predicate AddsHeld(sys: System, a: Action, id: nat) {
    a.Add? && sys.PhaseOf(a.requeuer).Holding? && sys.PhaseOf(a.requeuer).id == id
  }

  predicate TakesEffect(sys: System, a: Action)
    requires a.Add? && sys.PhaseOf(a.requeuer).Holding?
  {
    Storable(sys.PhaseOf(a.requeuer).message) && a.fate != FailsBefore
  }

  predicate Holds(p: Phase, id: nat) { p.Holding? && p.id == id }

  function HoldersIn(phases: map<nat, Phase>, id: nat): set<nat> {
    set r | r in phases && Holds(phases[r], id)
  }

  function Holders(sys: System, id: nat): set<nat> { HoldersIn(sys.phases, id) }

  ghost predicate Engaged(sys: System, id: nat) {
    exists r :: r in sys.phases && sys.phases[r] != Idle && sys.phases[r].id == id
  }

  /** The copies of the letter that have been made, and those that may yet be. */
  function Pending(sys: System, id: nat): nat { |sys.CopiesOf(id)| + |Holders(sys, id)| }

  /** The letter is got hold of only when nobody is at it and it has not been added before. */
  ghost predicate Careful(sys: System, actions: seq<Action>, id: nat)
    decreases |actions|
  {
    || actions == []
    || (&& (Gets(sys, actions[0], id) ==> !Engaged(sys, id) && sys.CopiesOf(id) == {})
        && Careful(Step(sys, actions[0]), actions[1..], id))
  }

  /** Whoever gets hold of the letter goes on to add it, and the command is not lost on its way. */
  ghost predicate GoOn(sys: System, actions: seq<Action>, id: nat)
    decreases |actions|
  {
    if actions == [] then Holders(sys, id) == {}
    else && (AddsHeld(sys, actions[0], id) ==> TakesEffect(sys, actions[0]))
         && GoOn(Step(sys, actions[0]), actions[1..], id)
  }

  lemma ReadStep(sys: System, r: nat, id: nat)
    requires sys.PhaseOf(r) == Idle && sys.Readable(id).Some?
    ensures var sys' := Step(sys, Read(r, id, Fine));
            sys' == sys.(phases := sys.phases[r := Holding(id, sys.Readable(id).value)])
  {
  }

  lemma SizeWithout(s: set<nat>, r: nat)
    ensures |s| == |s - {r}| + if r in s then 1 else 0
  {
    if r in s {
      assert s == (s - {r}) + {r};
    } else {
      assert s == s - {r};
    }
  }

  lemma HolderAfter(phases: map<nat, Phase>, r: nat, p: Phase, id: nat, k: nat)
    ensures k in HoldersIn(phases[r := p], id) <==> if k == r then Holds(p, id) else k in HoldersIn(phases, id)
  {
  }

  lemma HoldersInAfter(phases: map<nat, Phase>, r: nat, p: Phase, id: nat)
    ensures |HoldersIn(phases[r := p], id)| + (if r in HoldersIn(phases, id) then 1 else 0)
         == |HoldersIn(phases, id)| + if Holds(p, id) then 1 else 0
  {
    var before, after := HoldersIn(phases, id), HoldersIn(phases[r := p], id);
    SizeWithout(before, r);
    SizeWithout(after, r);
    HolderAfter(phases, r, p, id, r);
    forall k | k != r ensures k in after <==> k in before {
      HolderAfter(phases, r, p, id, k);
    }
    assert after - {r} == before - {r};
  }

  lemma HoldersAfter(sys: System, sys': System, r: nat, p: Phase, id: nat)
    requires sys'.phases == sys.phases[r := p]
    ensures |Holders(sys', id)| + (if Holds(sys.PhaseOf(r), id) then 1 else 0)
         == |Holders(sys, id)| + if Holds(p, id) then 1 else 0
  {
    HoldersInAfter(sys.phases, r, p, id);
  }

  lemma PendingAfterRead(sys: System, r: nat, k: nat, id: nat)
    requires Gets(sys, Read(r, k, Fine), k)
    ensures Pending(Step(sys, Read(r, k, Fine)), id) == Pending(sys, id) + if k == id then 1 else 0
  {
    ReadStep(sys, r, k);
    HoldersAfter(sys, Step(sys, Read(r, k, Fine)), r, Holding(k, sys.Readable(k).value), id);
  }

  lemma CopyIsNew(sys: System, base: nat, id: nat, now: nat)
    requires CopiesAreOwn(sys, base)
    ensures NextId(sys.queues.source.lastId, now) !in sys.CopiesOf(id)
  {
    forall c | c in sys.CopiesOf(id) ensures c <= sys.queues.source.lastId {
    }
  }

  /** An add by a requeuer that holds a letter, step by step. */
  lemma AddParts(sys: System, base: nat, r: nat, now: nat, fate: Fate, id: nat)
    requires CopiesAreOwn(sys, base) && sys.PhaseOf(r).Holding?
    ensures var a, k := Add(r, now, fate), sys.PhaseOf(r).id;
            var sys' := Step(sys, a);
            && sys'.queues.dlq == sys.queues.dlq && !Holds(sys'.PhaseOf(r), id)
            && sys'.phases == sys.phases[r := if TakesEffect(sys, a) && fate == Fine then Added(k) else Idle]
            && |sys'.CopiesOf(id)| == |sys.CopiesOf(id)| + if TakesEffect(sys, a) && k == id then 1 else 0
  {
    CopyIsNew(sys, base, id, now);
  }

  lemma PendingAfterAdd(sys: System, base: nat, r: nat, now: nat, fate: Fate, id: nat)
    requires CopiesAreOwn(sys, base) && sys.PhaseOf(r).Holding?
    ensures var a := Add(r, now, fate);
            Pending(Step(sys, a), id) + (if sys.PhaseOf(r).id == id && !TakesEffect(sys, a) then 1 else 0)
            == Pending(sys, id)
  {
    AddParts(sys, base, r, now, fate, id);
    var sys' := Step(sys, Add(r, now, fate));
    HoldersAfter(sys, sys', r, sys'.PhaseOf(r), id);
  }

  lemma DeleteParts(sys: System, r: nat, fate: Fate)
    requires sys.PhaseOf(r).Added?
    ensures var sys' := Step(sys, Delete(r, fate));
            && sys'.phases == sys.phases[r := Idle] && sys'.copies == sys.copies
            && sys'.queues.dlq == if fate == FailsBefore then sys.queues.dlq
                                  else sys.queues.dlq.Delete(sys.PhaseOf(r).id)
  {
  }

  lemma PendingAfterDelete(sys: System, r: nat, fate: Fate, id: nat)
    requires sys.PhaseOf(r).Added?
    ensures Pending(Step(sys, Delete(r, fate)), id) == Pending(sys, id)
  {
    DeleteParts(sys, r, fate);
    HoldersAfter(sys, Step(sys, Delete(r, fate)), r, Idle, id);
  }

  /** Getting hold of the letter makes one more copy possible, a lost add one fewer; nothing else counts. */
  lemma PendingAfter(sys: System, base: nat, a: Action, id: nat)
    requires Invariant(sys, base)
    ensures Pending(Step(sys, a), id) + (if AddsHeld(sys, a, id) && !TakesEffect(sys, a) then 1 else 0)
         == Pending(sys, id) + if Gets(sys, a, id) then 1 else 0
  {
    match a
    case Read(r, k, fate) => if Gets(sys, a, k) { PendingAfterRead(sys, r, k, id); }
    case Add(r, now, fate) => if sys.PhaseOf(r).Holding? { PendingAfterAdd(sys, base, r, now, fate, id); }
    case Delete(r, fate) => if sys.PhaseOf(r).Added? { PendingAfterDelete(sys, r, fate, id); }
    case _ =>
  }

  /** Nobody is at the letter and it has no copy exactly when none is made or possible. */
  lemma FreeIffNonePending(sys: System, base: nat, id: nat)
    requires Invariant(sys, base)
    ensures !Engaged(sys, id) && sys.CopiesOf(id) == {} <==> Pending(sys, id) == 0
  {
    if Engaged(sys, id) {
      var r :| r in sys.phases && sys.phases[r] != Idle && sys.phases[r].id == id;
      assert PhaseInvariant(sys, sys.phases[r]);
      assert sys.phases[r].Holding? ==> r in Holders(sys, id);
    }
    if Holders(sys, id) != {} {
      var r :| r in Holders(sys, id);
      assert Engaged(sys, id);
    }
  }

  /**
   When an id is added at most once, over any run in which whoever gets hold of it goes on: exactly
   when nobody ever gets hold of it while another requeuer is at it or after it has been added.
   */
  lemma {:induction false} AddedOnceIffCareful(sys: System, base: nat, actions: seq<Action>, id: nat)
    requires Invariant(sys, base) && GoOn(sys, actions, id)
    ensures |After(sys, actions).CopiesOf(id)| <= 1 <==> Pending(sys, id) <= 1 && Careful(sys, actions, id)
    decreases |actions|
  {
    if actions == [] {
      assert Holders(sys, id) == {};
    } else {
      StepKeepsInvariant(sys, base, actions[0]);
      PendingAfter(sys, base, actions[0], id);
      FreeIffNonePending(sys, base, id);
      AddedOnceIffCareful(Step(sys, actions[0]), base, actions[1..], id);
    }
  }

  /** Such care suffices even when some requeuers give up on the way. */
  lemma {:induction false} CarefulAddsOnce(sys: System, base: nat, actions: seq<Action>, id: nat)
    requires Invariant(sys, base) && Pending(sys, id) <= 1 && Careful(sys, actions, id)
    ensures |After(sys, actions).CopiesOf(id)| <= 1
    decreases |actions|
  {
    if actions == [] {
    } else {
      StepKeepsInvariant(sys, base, actions[0]);
      PendingAfter(sys, base, actions[0], id);
      FreeIffNonePending(sys, base, id);
      CarefulAddsOnce(Step(sys, actions[0]), base, actions[1..], id);
    }
  }

  // ----- Overlap and failures are the only causes -----

  /** The letter is never got hold of while another requeuer is at it. */
  ghost predicate NoOverlap(sys: System, actions: seq<Action>, id: nat)
    decreases |actions|
  {
    || actions == []
    || ((Gets(sys, actions[0], id) ==> !Engaged(sys, id)) && NoOverlap(Step(sys, actions[0]), actions[1..], id))
  }

  /** No add of the letter fails after it has taken effect, and no delete of it before. */
  ghost predicate NoHalfFailure(sys: System, actions: seq<Action>, id: nat)
    decreases |actions|
  {
    || actions == []
    || (&& (AddsHeld(sys, actions[0], id) ==> actions[0].fate != FailsAfter)
        && (actions[0].Delete? && sys.PhaseOf(actions[0].requeuer) == Added(id) ==> actions[0].fate != FailsBefore)
        && NoHalfFailure(Step(sys, actions[0]), actions[1..], id))
  }

  ghost predicate Absent(sys: System, id: nat) {
    forall e :: e in sys.queues.dlq.entries ==> e.id != id
  }

  ghost predicate Finishing(sys: System, id: nat) {
    exists r :: r in sys.phases && sys.phases[r] == Added(id)
  }

  /** Once added, the letter is out of the queue or a requeuer is about to delete it. */
  ghost predicate Tidy(sys: System, id: nat) {
    sys.CopiesOf(id) != {} ==> Absent(sys, id) || Finishing(sys, id)
  }

  /** A requeuer that is about to delete the letter still is when another one moves. */
  lemma OthersFinish(sys: System, sys': System, r: nat, p: Phase, id: nat)
    requires sys.PhaseOf(r) != Added(id) && Finishing(sys, id) && sys'.phases == sys.phases[r := p]
    ensures Finishing(sys', id)
  {
    var k :| k in sys.phases && sys.phases[k] == Added(id);
    assert k in sys'.phases && sys'.phases[k] == Added(id);
  }

  lemma TidyAfterAdd(sys: System, r: nat, now: nat, fate: Fate, id: nat)
    requires Tidy(sys, id) && sys.PhaseOf(r).Holding?
    requires sys.PhaseOf(r).id == id ==> fate != FailsAfter
    ensures Tidy(Step(sys, Add(r, now, fate)), id)
  {
    var sys' := Step(sys, Add(r, now, fate));
    if sys.PhaseOf(r).id == id && TakesEffect(sys, Add(r, now, fate)) {
      assert r in sys'.phases && sys'.phases[r] == Added(id);
    } else if sys.CopiesOf(id) != {} && !Absent(sys, id) {
      OthersFinish(sys, sys', r, sys'.phases[r], id);
    }
  }

  lemma TidyAfterDelete(sys: System, r: nat, fate: Fate, id: nat)
    requires Tidy(sys, id) && sys.PhaseOf(r).Added?
    requires sys.PhaseOf(r).id == id ==> fate != FailsBefore
    ensures Tidy(Step(sys, Delete(r, fate)), id)
  {
    var sys' := Step(sys, Delete(r, fate));
    WithoutExact(sys.queues.dlq.entries, sys.PhaseOf(r).id);
    if sys.PhaseOf(r).id != id && sys.CopiesOf(id) != {} && !Absent(sys, id) {
      OthersFinish(sys, sys', r, Idle, id);
    }
  }

  lemma TidyAfterRead(sys: System, r: nat, k: nat, id: nat)
    requires Tidy(sys, id) && Gets(sys, Read(r, k, Fine), k)
    ensures Tidy(Step(sys, Read(r, k, Fine)), id)
  {
    var sys' := Step(sys, Read(r, k, Fine));
    if sys.CopiesOf(id) != {} && !Absent(sys, id) {
      OthersFinish(sys, sys', r, sys'.phases[r], id);
    }
  }

  lemma TidyAfterSend(sys: System, base: nat, now: nat, fields: Stored, fate: Fate, id: nat)
    requires Invariant(sys, base) && Tidy(sys, id)
    ensures Tidy(Step(sys, Send(now, fields, fate)), id)
  {
    if sys.CopiesOf(id) != {} {
      assert id in sys.stored && id <= sys.queues.dlq.lastId;
      LastIn(sys.queues.dlq.entries, Entry(NextId(sys.queues.dlq.lastId, now), fields));
    }
  }

  lemma StepStaysTidy(sys: System, base: nat, a: Action, id: nat)
    requires Invariant(sys, base) && Tidy(sys, id)
    requires AddsHeld(sys, a, id) ==> a.fate != FailsAfter
    requires a.Delete? && sys.PhaseOf(a.requeuer) == Added(id) ==> a.fate != FailsBefore
    ensures Tidy(Step(sys, a), id)
  {
    match a
    case Add(r, now, fate) => if sys.PhaseOf(r).Holding? { TidyAfterAdd(sys, r, now, fate, id); }
    case Delete(r, fate) => if sys.PhaseOf(r).Added? { TidyAfterDelete(sys, r, fate, id); }
    case Read(r, k, fate) => if Gets(sys, a, k) { TidyAfterRead(sys, r, k, id); }
    case Send(now, fields, fate) => TidyAfterSend(sys, base, now, fields, fate, id);
    case Produce(now, message) =>
  }

  lemma ReadableIsThere(sys: System, id: nat)
    requires sys.Readable(id).Some?
    ensures exists e :: e in sys.queues.dlq.entries && e.id == id
  {
    FindExact(sys.queues.dlq.entries, id);
    var f := Find(sys.queues.dlq.entries, id).value;
    assert Entry(id, f) in sys.queues.dlq.entries;
  }

  lemma {:induction false} CarefulIffNoOverlap(sys: System, base: nat, actions: seq<Action>, id: nat)
    requires Invariant(sys, base) && Tidy(sys, id) && NoHalfFailure(sys, actions, id)
    ensures Careful(sys, actions, id) <==> NoOverlap(sys, actions, id)
    decreases |actions|
  {
    if actions == [] {
    } else {
      var a := actions[0];
      if Gets(sys, a, id) { ReadableIsThere(sys, id); }
      StepKeepsInvariant(sys, base, a);
      StepStaysTidy(sys, base, a, id);
      CarefulIffNoOverlap(Step(sys, a), base, actions[1..], id);
    }
  }

  /**
   When no command fails halfway, in the sense above, a letter that nobody is at is added at most
   once exactly when no two requeuers are at it at the same time.
   */
  lemma AddedOnceIffNoOverlap(sys: System, base: nat, actions: seq<Action>, id: nat)
    requires Invariant(sys, base) && Pending(sys, id) == 0
    requires GoOn(sys, actions, id) && NoHalfFailure(sys, actions, id)
    ensures |After(sys, actions).CopiesOf(id)| <= 1 <==> NoOverlap(sys, actions, id)
  {
    FreeIffNonePending(sys, base, id);
    AddedOnceIffCareful(sys, base, actions, id);
    CarefulIffNoOverlap(sys, base, actions, id);
  }

  // ----- Each of the two causes does it -----

  lemma AddStep(sys: System, base: nat, r: nat, now: nat, fate: Fate)
    requires Invariant(sys, base) && sys.PhaseOf(r).Holding? && TakesEffect(sys, Add(r, now, fate))
    ensures var id, sys' := sys.PhaseOf(r).id, Step(sys, Add(r, now, fate));
            && Invariant(sys', base) && sys'.queues.dlq == sys.queues.dlq
            && sys'.phases == sys.phases[r := if fate == Fine then Added(id) else Idle]
            && |sys'.CopiesOf(id)| == |sys.CopiesOf(id)| + 1
  {
    StepKeepsInvariant(sys, base, Add(r, now, fate));
    AddParts(sys, base, r, now, fate, sys.PhaseOf(r).id);
  }

  lemma {:induction false} AfterConcat(sys: System, a: seq<Action>, b: seq<Action>)
    ensures After(sys, a + b) == After(After(sys, a), b)
    decreases |a|
  {
    if a == [] {
      assert a + b == b;
    } else {
      assert (a + b)[1..] == a[1..] + b;
      AfterConcat(Step(sys, a[0]), a[1..], b);
    }
  }

  lemma AfterTwo(sys: System, a: Action, b: Action)
    ensures After(sys, [a, b]) == Step(Step(sys, a), b)
  {
    assert [a, b][1..] == [b] && [b][1..] == [];
    assert After(Step(sys, a), [b]) == Step(Step(sys, a), b);
  }

  /** Two requeuers that both read before either deletes add the letter twice. */
  lemma OverlapDuplicates(sys: System, base: nat, r: nat, s: nat, id: nat, now: nat)
    requires Invariant(sys, base) && r != s && sys.PhaseOf(r) == Idle == sys.PhaseOf(s)
    requires sys.Readable(id).Some? && Storable(sys.Readable(id).value)
    ensures var end := After(sys, [Read(r, id, Fine), Read(s, id, Fine)] + [Add(r, now, Fine), Add(s, now, Fine)]);
            |end.CopiesOf(id)| == |sys.CopiesOf(id)| + 2
  {
    var gets, puts := [Read(r, id, Fine), Read(s, id, Fine)], [Add(r, now, Fine), Add(s, now, Fine)];
    AfterConcat(sys, gets, puts);
    AfterTwo(sys, gets[0], gets[1]);
    ReadStep(sys, r, id);
    var s1 := Step(sys, gets[0]);
    ReadStep(s1, s, id);
    var s2 := Step(s1, gets[1]);
    AfterTwo(s2, puts[0], puts[1]);
    StepKeepsInvariant(sys, base, gets[0]);
    StepKeepsInvariant(s1, base, gets[1]);
    AddStep(s2, base, r, now, Fine);
    AddStep(Step(s2, puts[0]), base, s, now, Fine);
  }

  lemma ReadAndAdd(sys: System, base: nat, r: nat, id: nat, now: nat, fate: Fate)
    requires Invariant(sys, base) && sys.PhaseOf(r) == Idle && fate != FailsBefore
    requires sys.Readable(id).Some? && Storable(sys.Readable(id).value)
    ensures var end := After(sys, [Read(r, id, Fine), Add(r, now, fate)]);
            && Invariant(end, base) && end.queues.dlq == sys.queues.dlq
            && end.PhaseOf(r) == (if fate == Fine then Added(id) else Idle)
            && |end.CopiesOf(id)| == |sys.CopiesOf(id)| + 1
  {
    AfterTwo(sys, Read(r, id, Fine), Add(r, now, fate));
    ReadStep(sys, r, id);
    StepKeepsInvariant(sys, base, Read(r, id, Fine));
    AddStep(Step(sys, Read(r, id, Fine)), base, r, now, fate);
  }

  /** A single requeuer whose add fails after taking effect, and who tries again, adds it twice. */
  lemma LateAddFailureDuplicates(sys: System, base: nat, r: nat, id: nat, now: nat)
    requires Invariant(sys, base) && sys.PhaseOf(r) == Idle
    requires sys.Readable(id).Some? && Storable(sys.Readable(id).value)
    ensures var once, again := [Read(r, id, Fine), Add(r, now, FailsAfter)], [Read(r, id, Fine), Add(r, now, Fine)];
            var end := After(sys, once + again);
            |end.CopiesOf(id)| == |sys.CopiesOf(id)| + 2
  {
    var once, again := [Read(r, id, Fine), Add(r, now, FailsAfter)], [Read(r, id, Fine), Add(r, now, Fine)];
    AfterConcat(sys, once, again);
    ReadAndAdd(sys, base, r, id, now, FailsAfter);
    ReadAndAdd(After(sys, once), base, r, id, now, Fine);
  }

  /** So does one whose delete fails before taking effect. */
  lemma EarlyDeleteFailureDuplicates(sys: System, base: nat, r: nat, id: nat, now: nat)
    requires Invariant(sys, base) && sys.PhaseOf(r) == Idle
    requires sys.Readable(id).Some? && Storable(sys.Readable(id).value)
    ensures var once := [Read(r, id, Fine), Add(r, now, Fine)];
            |After(sys, once + ([Delete(r, FailsBefore)] + once)).CopiesOf(id)| == |sys.CopiesOf(id)| + 2
  {
    var once, delete := [Read(r, id, Fine), Add(r, now, Fine)], Delete(r, FailsBefore);
    AfterConcat(sys, once, [delete] + once);
    ReadAndAdd(sys, base, r, id, now, Fine);
    var mid := After(sys, once);
    assert ([delete] + once)[1..] == once;
    DeleteParts(mid, r, FailsBefore);
    StepKeepsInvariant(mid, base, delete);
    ReadAndAdd(Step(mid, delete), base, r, id, now, Fine);
  }

  // ----- One requeuer alone -----

  /** A requeue that nothing interrupts is the three steps of one requeuer. */
  lemma RequeueIsThreeSteps(sys: System, r: nat, id: nat, now: nat, read: Fate, add: Fate, delete: Fate)
    requires sys.PhaseOf(r) == Idle
    ensures var s1 := Step(sys, Read(r, id, read));
            var s2 := Step(s1, Add(r, now, add));
            var s3 := Step(s2, Delete(r, delete));
            s3.queues == Requeue(sys.queues, id, now, read, add, delete).0 && s3.PhaseOf(r) == Idle
  {
  }
}
