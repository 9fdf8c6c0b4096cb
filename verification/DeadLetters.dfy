/**
 The dead letter queue of a stream (core/dlq.py).

 Requeueing is three commands - read the dead letter, add its message to the source stream,
 delete the dead letter - and any of them may fail.  JSON text is taken as the value it encodes.
 */
module DeadLetters {
  import opened Options
  import opened Streams

  import Envelopes

  // ----- The record and its stored form -----

  datatype Value = Text(text: string) | Number(number: real) | Flag(flag: bool) | Null | Nested

  type Message = map<string, Value>

  /** What parsing a JSON text gives. */
  datatype Parsed = Object(fields: Message) | NotObject

  datatype JsonText = Json(parsed: Parsed) | Broken(raw: string)

  datatype Numeral = Decimal(n: int) | NotDecimal

  datatype DeadLetter = DeadLetter(
    message: Parsed, stream: string, messageId: string, reason: string, failures: int, failedAt: string,
    lastError: Option<string>, errorType: Option<string>, consumer: Option<string>, tenant: Option<string>)

  /** The hash fields of a dead letter; any of them may be absent from a stored entry. */
  datatype Stored = Stored(
    message: Option<JsonText>, stream: Option<string>, messageId: Option<string>, reason: Option<string>,
    failures: Option<Numeral>, failedAt: Option<string>,
    lastError: Option<string>, errorType: Option<string>, consumer: Option<string>, tenant: Option<string>)

  function OrEmpty(o: Option<string>): Option<string> { if o.None? then Some("") else o }

  function OrNone(o: Option<string>): Option<string> { if o == Some("") then None else o }

  function Default(o: Option<string>, d: string): string { if o.Some? then o.value else d }

  function ToFields(d: DeadLetter): Stored {
    Stored(Some(Json(d.message)), Some(d.stream), Some(d.messageId), Some(d.reason),
           Some(Decimal(d.failures)), Some(d.failedAt),
           OrEmpty(d.lastError), OrEmpty(d.errorType), OrEmpty(d.consumer), OrEmpty(d.tenant))
  }

  /** None when the failure count is not a number, which raises. */
  function FromFields(f: Stored): Option<DeadLetter> {
    var message := match f.message
      case None => Object(map[])
      case Some(Json(p)) => p
      case Some(Broken(raw)) => Object(map["raw" := Text(raw)]);
    var failures := if f.failures.Some? then f.failures.value else Decimal(0);
    if failures.NotDecimal? then None
    else Some(DeadLetter(
      message, Default(f.stream, ""), Default(f.messageId, ""), Default(f.reason, "unknown"),
      failures.n, Default(f.failedAt, ""),
      OrNone(f.lastError), OrNone(f.errorType), OrNone(f.consumer), OrNone(f.tenant)))
  }

  predicate NoEmptyOption(d: DeadLetter) {
    Some("") !in [d.lastError, d.errorType, d.consumer, d.tenant]
  }

  /** Storing and reading back is exact unless an optional field is present and empty. */
  lemma RoundTripIff(d: DeadLetter)
    ensures FromFields(ToFields(d)) == Some(d) <==> NoEmptyOption(d)
  {
  }

  /** Every field is stored under its own name, and none is left out: what is missing is stored as empty. */
  lemma StoredIsComplete(d: DeadLetter)
    ensures var f := ToFields(d);
            && f.message == Some(Json(d.message)) && f.failures == Some(Decimal(d.failures))
            && [f.stream, f.messageId, f.reason, f.failedAt]
               == [Some(d.stream), Some(d.messageId), Some(d.reason), Some(d.failedAt)]
            && [f.lastError, f.errorType, f.consumer, f.tenant]
               == [Some(Default(d.lastError, "")), Some(Default(d.errorType, "")),
                   Some(Default(d.consumer, "")), Some(Default(d.tenant, ""))]
  {
  }

  /** What has been read once survives any further storing, whatever was stored in the first place. */
  lemma ReadIsNormal(f: Stored)
    requires FromFields(f).Some?
    ensures FromFields(ToFields(FromFields(f).value)) == FromFields(f)
  {
    RoundTripIff(FromFields(f).value);
  }

  /** Redis takes a message of at least one field, each a string or a number. */
  predicate Storable(p: Parsed) {
    p.Object? && p.fields != map[]
    && forall k :: k in p.fields ==> p.fields[k].Text? || p.fields[k].Number?
  }

  // ----- When a message is due -----

  predicate Due(enabled: bool, maxRetries: int, failures: int) { enabled && failures >= maxRetries }

  /**
   Queue and envelope agree: a message whose last event was a retry is due for an enabled queue with
   its limit exactly when the retry has marked its envelope as dead, and never for a disabled one.
   */
  lemma DueIffMarkedDead(e: Envelopes.Envelope, evs: seq<Envelopes.Event>, k: nat, enabled: bool)
    requires 0 < k <= |evs| && evs[k - 1].Retrying?
    ensures var e' := Envelopes.After(e, evs, k);
            Due(enabled, e.metadata.maxRetries, e'.metadata.retryCount) <==> enabled && e'.status == Envelopes.Dlq
  {
    Envelopes.DeadAfterMaxRetries(e, evs, k);
  }

  // ----- The two streams -----

  datatype Queues = Queues(dlq: Stream<Stored>, source: Stream<Message>) {
    ghost predicate Valid() { dlq.Valid() && source.Valid() }
  }

  function Find<F>(es: seq<Entry<F>>, id: nat): Option<F> {
    if es == [] then None else if es[0].id == id then Some(es[0].fields) else Find(es[1..], id)
  }

  /** The message that requeueing the stored entry would add, if it can be read at all. */
  function MessageOf(f: Stored): Option<Parsed> {
    match FromFields(f)
    case None => None
    case Some(d) => Some(d.message)
  }

  // ----- Looking up and deleting -----

  lemma {:induction false} FindExact<F>(es: seq<Entry<F>>, id: nat)
    ensures Find(es, id).Some? ==> Entry(id, Find(es, id).value) in es
    ensures Find(es, id).None? ==> forall e :: e in es ==> e.id != id
  {
    if es == [] {
    } else {
      FindExact(es[1..], id);
    }
  }

  lemma AddKeepsValid<F>(s: Stream<F>, now: nat, fields: F)
    requires s.Valid()
    ensures s.CanAdd(NextId(s.lastId, now)) && s.Add(NextId(s.lastId, now), fields).Valid()
  {
  }

  lemma DeleteKeepsValid<F>(s: Stream<F>, id: nat)
    requires s.Valid()
    ensures s.Delete(id).Valid()
  {
    WithoutExact(s.entries, id);
    var es := Without(s.entries, id);
    forall i | 0 <= i < |es| ensures 0 < es[i].id <= s.lastId {
      KeptIsOriginal(s.entries, id, es[i]);
      var j :| 0 <= j < |s.entries| && s.entries[j] == es[i];
    }
  }

  // ----- One requeue at a time -----

  /** A whole `requeue_message`, given how its three commands go, and the id it returns. */
  function Requeue(q: Queues, id: nat, now: nat, read: Fate, add: Fate, delete: Fate): (Queues, Option<nat>) {
    var found := Find(q.dlq.entries, id);
    if read != Fine || found.None? then (q, None)
    else
      var message := MessageOf(found.value);
      if message.None? || !Storable(message.value) || add == FailsBefore then (q, None)
      else
        var newId := NextId(q.source.lastId, now);
        var q' := q.(source := q.source.Add(newId, message.value.fields));
        if add == FailsAfter || delete == FailsBefore then (q', None)
        else (q'.(dlq := q'.dlq.Delete(id)), if delete == Fine then Some(newId) else None)
  }

  /** An id is returned only if all three commands went well, and then the message has changed places. */
  lemma AnswerMeansMoved(q: Queues, id: nat, now: nat, read: Fate, add: Fate, delete: Fate)
    requires q.Valid()
    ensures var (q', newId) := Requeue(q, id, now, read, add, delete);
            && (newId.Some? ==>
                  && [read, add, delete] == [Fine, Fine, Fine]
                  && q'.dlq.entries == Without(q.dlq.entries, id) && |q'.source.entries| == |q.source.entries| + 1
                  && q'.source.entries[|q.source.entries|].id == newId.value > q.source.lastId)
            && (newId.None? && [read, add, delete] == [Fine, Fine, Fine] ==> q' == q)
  {
  }

  datatype Operation = SendOne(now: nat, fields: Stored) | RequeueOne(id: nat, now: nat)

  function Perform(q: Queues, op: Operation): (Queues, Option<nat>) {
    match op
    case SendOne(now, fields) =>
      var id := NextId(q.dlq.lastId, now);
      (q.(dlq := q.dlq.Add(id, fields)), Some(id))
    case RequeueOne(id, now) => Requeue(q, id, now, Fine, Fine, Fine)
  }

  /** How often `id` is requeued with success. */
  function TimesRequeued(q: Queues, ops: seq<Operation>, id: nat): nat
    decreases |ops|
  {
    if ops == [] then 0
    else
      var (q', r) := Perform(q, ops[0]);
      (if ops[0].RequeueOne? && ops[0].id == id && r.Some? then 1 else 0) + TimesRequeued(q', ops[1..], id)
  }

  ghost predicate Gone(q: Queues, id: nat) {
    id <= q.dlq.lastId && forall e :: e in q.dlq.entries ==> e.id != id
  }

  lemma PerformKeepsValid(q: Queues, op: Operation)
    requires q.Valid()
    ensures Perform(q, op).0.Valid() && q.dlq.lastId <= Perform(q, op).0.dlq.lastId
  {
    match op
    case SendOne(now, fields) => AddKeepsValid(q.dlq, now, fields);
    case RequeueOne(id, now) =>
      DeleteKeepsValid(q.dlq, id);
      var found := Find(q.dlq.entries, id);
      if found.Some? && MessageOf(found.value).Some? && Storable(MessageOf(found.value).value) {
        AddKeepsValid(q.source, now, MessageOf(found.value).value.fields);
      }
  }

  lemma GoneStaysGone(q: Queues, op: Operation, id: nat)
    requires q.Valid() && Gone(q, id)
    ensures Gone(Perform(q, op).0, id)
    ensures op.RequeueOne? && op.id == id ==> Perform(q, op).1.None?
  {
    FindExact(q.dlq.entries, id);
    if op.RequeueOne? {
      WithoutExact(q.dlq.entries, op.id);
    }
  }

  lemma RequeuedIsGone(q: Queues, id: nat, now: nat)
    requires q.Valid() && Perform(q, RequeueOne(id, now)).1.Some?
    ensures Gone(Perform(q, RequeueOne(id, now)).0, id)
  {
    FindExact(q.dlq.entries, id);
    WithoutExact(q.dlq.entries, id);
    var f := Find(q.dlq.entries, id).value;
    var j :| 0 <= j < |q.dlq.entries| && q.dlq.entries[j] == Entry(id, f);
  }

  lemma {:induction false} NeverRequeuedAgain(q: Queues, ops: seq<Operation>, id: nat)
    requires q.Valid() && Gone(q, id)
    ensures TimesRequeued(q, ops, id) == 0
    decreases |ops|
  {
    if ops == [] {
    } else {
      PerformKeepsValid(q, ops[0]);
      GoneStaysGone(q, ops[0], id);
      NeverRequeuedAgain(Perform(q, ops[0]).0, ops[1..], id);
    }
  }

  /** Without failures or overlap an id of the dead letter queue is requeued at most once, ever. */
  lemma {:induction false} RequeuedAtMostOnce(q: Queues, ops: seq<Operation>, id: nat)
    requires q.Valid()
    ensures TimesRequeued(q, ops, id) <= 1
    decreases |ops|
  {
    if ops == [] {
    } else {
      PerformKeepsValid(q, ops[0]);
      var (q', r) := Perform(q, ops[0]);
      if ops[0].RequeueOne? && ops[0].id == id && r.Some? {
        RequeuedIsGone(q, id, ops[0].now);
        NeverRequeuedAgain(q', ops[1..], id);
      } else {
        RequeuedAtMostOnce(q', ops[1..], id);
      }
    }
  }

  lemma {:induction false} FindLast<F>(es: seq<Entry<F>>, id: nat, f: F)
    requires forall e :: e in es ==> e.id != id
    ensures Find(es + [Entry(id, f)], id) == Some(f)
    ensures Without(es + [Entry(id, f)], id) == es
  {
    if es == [] {
      assert [Entry(id, f)][1..] == [];
    } else {
      assert es[0] in es;
      FindLast(es[1..], id, f);
      assert (es + [Entry(id, f)])[1..] == es[1..] + [Entry(id, f)];
    }
  }

  lemma NextIdIsNew<F>(s: Stream<F>, now: nat)
    requires s.Valid()
    ensures forall e :: e in s.entries ==> e.id != NextId(s.lastId, now)
  {
  }

  /** No field holds a flag, null or a nested value. */
  ghost predicate NoneOdd(m: Message) {
    forall k :: k in m.Keys ==> !m[k].Flag? && m[k] != Null && m[k] != Nested
  }

  /**
   Requeueing undoes sending: the dead letter queue has its entries back and the source stream
   ends with the original message.  It does so exactly when the message is one that Redis can
   hold; otherwise the dead letter stays where it is.
   */
  lemma RequeueUndoesSend(q: Queues, d: DeadLetter, sent: nat, requeued: nat)
    requires q.Valid()
    ensures var (q', id) := Perform(q, SendOne(sent, ToFields(d)));
            var (q'', newId) := Perform(q', RequeueOne(id.value, requeued));
            if d.message.Object? && d.message.fields != map[] && NoneOdd(d.message.fields) then
              newId.Some? && q''.dlq.entries == q.dlq.entries
              && q''.source.entries == q.source.entries + [Entry(newId.value, d.message.fields)]
            else newId.None? && q'' == q'
  {
    var id := NextId(q.dlq.lastId, sent);
    NextIdIsNew(q.dlq, sent);
    FindLast(q.dlq.entries, id, ToFields(d));
    if d.message.Object? { assert Storable(d.message) <==> d.message.fields != map[] && NoneOdd(d.message.fields); }
  }

  /**
   What requeueing makes of an entry that `SendOne` did not store: a message that is no JSON is sent as its
   text under "raw"; without a message, or with a failure count that is no number, nothing happens.
   */
  lemma OddEntryRequeued(q: Queues, id: nat, now: nat, f: Stored)
    requires q.Valid() && Find(q.dlq.entries, id) == Some(f) && (f.message == None || f.message.value.Broken?)
    ensures var (q', newId) := Perform(q, RequeueOne(id, now));
            if f.message == None || f.failures == Some(NotDecimal) then (q', newId) == (q, None)
            else && newId.Some? && Gone(q', id)
                 && q'.source.entries
                    == q.source.entries + [Entry(newId.value, map["raw" := Text(f.message.value.raw)])]
  {
    if f.message.Some? { assert "raw" in map["raw" := Text(f.message.value.raw)]; }
    if Perform(q, RequeueOne(id, now)).1.Some? { RequeuedIsGone(q, id, now); }
  }

  // ----- The queue object -----

  class DeadLetterQueue {
    const sourceStream: string
    const maxRetries: int
    const enabled: bool
    var queues: Queues
    var fates: seq<Fate>

    ghost predicate Valid()
      reads this
    {
      queues.Valid()
    }

    constructor (sourceStream: string, maxRetries: int, enabled: bool, queues: Queues, fates: seq<Fate>)
      requires queues.Valid()
      ensures Valid() && this.queues == queues && this.fates == fates
      ensures this.sourceStream == sourceStream && this.maxRetries == maxRetries && this.enabled == enabled
    {
      this.sourceStream, this.maxRetries, this.enabled := sourceStream, maxRetries, enabled;
      this.queues, this.fates := queues, fates;
    }

    function FateAt(i: nat): Fate
      reads this
    {
      if i < |fates| then fates[i] else Fine
    }

    method ShouldDlq(failures: int) returns (r: bool)
      ensures r <==> Due(enabled, maxRetries, failures)
    {
      if !enabled {
        return false;
      }
      r := failures >= maxRetries;
    }

    method Draw() returns (f: Fate)
      modifies this`fates
      ensures f == old(FateAt(0))
      ensures fates == if old(fates) == [] then [] else old(fates)[1..]
    {
      f := FateAt(0);
      fates := if fates == [] then [] else fates[1..];
    }

    /** A failed message is stored whole, or not at all when the queue is disabled or Redis fails first. */
    method SendToDlq(message: Message, messageId: string, reason: string, failures: int, failedAt: string,
                     lastError: Option<string>, errorType: Option<string>,
                     consumer: Option<string>, tenant: Option<string>, now: nat)
      returns (id: Option<nat>)
      requires Valid()
      modifies this
      ensures Valid()
      ensures var d := DeadLetter(Object(message), sourceStream, messageId, reason, failures, failedAt,
                                  lastError, errorType, consumer, tenant);
              queues == if enabled && old(FateAt(0)) != FailsBefore
                        then Perform(old(queues), SendOne(now, ToFields(d))).0 else old(queues)
      ensures id == if enabled && old(FateAt(0)) == Fine then Some(NextId(old(queues).dlq.lastId, now)) else None
    {
      if !enabled {
        return None;
      }
      var d := DeadLetter(Object(message), sourceStream, messageId, reason, failures, failedAt,
                          lastError, errorType, consumer, tenant);
      var f := Draw();
      if f == FailsBefore {
        return None;
      }
      var newId := NextId(queues.dlq.lastId, now);
      AddKeepsValid(queues.dlq, now, ToFields(d));
      queues := queues.(dlq := queues.dlq.Add(newId, ToFields(d)));
      id := if f == Fine then Some(newId) else None;
    }

    method RequeueMessage(id: nat, now: nat) returns (newId: Option<nat>)
      requires Valid()
      modifies this
      ensures Valid()
      ensures (queues, newId)
           == Requeue(old(queues), id, now, old(FateAt(0)), old(FateAt(1)), old(FateAt(2)))
    {
      var read := Draw();
      if read != Fine {
        return None;
      }
      var found := Find(queues.dlq.entries, id);
      if found.None? {
        return None;
      }
      var message := MessageOf(found.value);
      if message.None? || !Storable(message.value) {
        return None;
      }
      var add := Draw();
      if add == FailsBefore {
        return None;
      }
      var added := NextId(queues.source.lastId, now);
      AddKeepsValid(queues.source, now, message.value.fields);
      queues := queues.(source := queues.source.Add(added, message.value.fields));
      if add == FailsAfter {
        return None;
      }
      var delete := Draw();
      if delete != FailsBefore {
        DeleteKeepsValid(queues.dlq, id);
        queues := queues.(dlq := queues.dlq.Delete(id));
      }
      newId := if delete == Fine then Some(added) else None;
    }
  }
}
