/**
 The bulk requeue script (scripts/redis/dlq_requeue.py), for one dead letter queue and its
 destination.  Adding and deleting may fail separately for every entry.
 */
module BulkRequeues {
  import opened Options
  import opened Streams
  import opened Envelopes

  // ----- Reading an entry -----

  /** What the `data` field of a stored entry holds. */
  datatype Data =
    | EnvelopeText(envelope: Envelope)
    | DictText(dict: map<string, Json>)
    | OtherText(value: Json)
    | NullText
    | BadText
    | NoData

  /** What is sent on: a typed envelope, or a legacy value as JSON. */
  datatype Item = Typed(envelope: Envelope) | LegacyDict(dict: map<string, Json>) | LegacyValue(value: Json)

  function ErrorText(v: Json): Option<string> {
    match v
    case JsonNull => None
    case JsonText(s) => Some(s)
    case JsonOther(r) => Some(r)
  }

  /** The item and its error text; no item when the payload is malformed. */
  function ParseEntry(d: Data): (Option<Item>, Option<string>) {
    match d
    case EnvelopeText(e) => (Some(Typed(e)), Some(if e.error.Some? then e.error.value else ""))
    case DictText(m) => (Some(LegacyDict(m)), if "error" in m then ErrorText(m["error"]) else None)
    case OtherText(v) => (Some(LegacyValue(v)), None)
    case _ => (None, None)
  }

  // ----- Filter and transformation -----

  function LowerChar(c: char): char {
    if 'A' <= c <= 'Z' then (c as int + 32) as char else c
  }

  function Lower(s: string): string {
    seq(|s|, i requires 0 <= i < |s| => LowerChar(s[i]))
  }

  predicate OccursAt(s: string, part: string, i: nat) {
    i + |part| <= |s| && s[i..i + |part|] == part
  }

  predicate Contains(s: string, part: string) {
    exists i :: 0 <= i <= |s| && OccursAt(s, part, i)
  }

  predicate PassesFilter(filter: Option<string>, error: Option<string>) {
    || filter.None? || filter.value == ""
    || (error.Some? && error.value != "" && Contains(Lower(error.value), Lower(filter.value)))
  }

  /** An upper-case letter and its lower-case form. */
  predicate CasePair(upper: char, lower: char) { 'A' <= upper <= 'Z' && lower as int == upper as int + 32 }

  predicate SameLetter(c: char, d: char) { c == d || CasePair(c, d) || CasePair(d, c) }

  /** Letter for letter, up to case, `part` stands in `s` at `i`. */
  predicate MatchesAt(s: string, part: string, i: nat) {
    i + |part| <= |s| && forall k :: 0 <= k < |part| ==> SameLetter(s[i + k], part[k])
  }

  predicate ContainsAnyCase(s: string, part: string) {
    exists i :: 0 <= i <= |s| && MatchesAt(s, part, i)
  }

  lemma LowerIffSame(c: char, d: char)
    ensures LowerChar(c) == LowerChar(d) <==> SameLetter(c, d)
  {
  }

  /** A filter finds its text anywhere in the error, whatever the case of the letters in either. */
  lemma FilterIgnoresCase(filter: string, error: string)
    requires filter != ""
    ensures PassesFilter(Some(filter), Some(error)) <==> ContainsAnyCase(error, filter)
  {
    if PassesFilter(Some(filter), Some(error)) {
      var i :| 0 <= i <= |error| && OccursAt(Lower(error), Lower(filter), i);
      forall k | 0 <= k < |filter| ensures SameLetter(error[i + k], filter[k]) {
        assert Lower(error)[i..i + |filter|][k] == Lower(error)[i + k];
        LowerIffSame(error[i + k], filter[k]);
      }
      assert MatchesAt(error, filter, i);
    }
    if i :| 0 <= i <= |error| && MatchesAt(error, filter, i) {
      forall k | 0 <= k < |filter| ensures Lower(error)[i + k] == Lower(filter)[k] {
        LowerIffSame(error[i + k], filter[k]);
      }
      assert Lower(error)[i..i + |filter|] == Lower(filter);
      assert OccursAt(Lower(error), Lower(filter), i);
    }
  }

  const ON_CONFLICT: Json := JsonOther("[\"email\"]")

  function Upsert(m: map<string, Json>): map<string, Json> {
    var m' := m["op" := JsonText("upsert")];
    if "on_conflict" in m' then m' else m'["on_conflict" := ON_CONFLICT]
  }

  function Transform(item: Item, upsert: bool): Item {
    if !upsert then item
    else match item
      case Typed(e) =>
        Typed(e.(payload := Upsert(e.payload), status := Pending, metadata := e.metadata.(retryCount := 0)))
      case LegacyDict(m) => LegacyDict(Upsert(m))
      case LegacyValue(_) => item
  }

  /** A transformed envelope is pending again, asks for an upsert and keeps an explicit conflict rule. */
  lemma TransformedTask(e: Envelope)
    ensures var e' := Transform(Typed(e), true).envelope;
            && e'.payload.Keys == e.payload.Keys + {"op", "on_conflict"}
            && e'.payload["op"] == JsonText("upsert")
            && (forall k :: k in e.payload && k != "op" ==> e'.payload[k] == e.payload[k])
            && ("on_conflict" !in e.payload ==> e'.payload["on_conflict"] == JsonOther("[\"email\"]"))
            && e' == e.(payload := e'.payload, status := Pending, metadata := e.metadata.(retryCount := 0))
            && Transform(Typed(e'), true) == Typed(e')
  {
  }

  /**
   A dead message whose retries are used up comes straight back to the dead letter queue at its
   next retry when it is requeued as it is; transformed, it has all of its retries again.
   */
  lemma OnlyTransformRestoresRetries(e: Envelope, evs: seq<Event>, k: nat)
    requires e.metadata.retryCount >= e.metadata.maxRetries
    requires 0 < k <= |evs| && evs[k - 1].Retrying?
    ensures After(Transform(Typed(e), false).envelope, evs, k).status == Dlq
    ensures After(Transform(Typed(e), true).envelope, evs, k).status == Dlq
            <==> Retries(evs, k) >= e.metadata.maxRetries
  {
    DeadAfterMaxRetries(e, evs, k);
    DeadAfterMaxRetries(Transform(Typed(e), true).envelope, evs, k);
  }

  // ----- What a run does -----

  datatype Settings = Settings(
    limit: nat, dryRun: bool, delete: bool, persist: bool, upsert: bool, filter: Option<string>)

  /** What the run wants to send for an entry; nothing for one that is malformed or filtered out. */
  function Selected(s: Settings, d: Data): Option<Item> {
    var (item, error) := ParseEntry(d);
    if item.None? || !PassesFilter(s.filter, error) then None
    else Some(if s.persist then Transform(item.value, s.upsert) else item.value)
  }

  /** How adding and deleting go for each entry of the run. */
  datatype Fates = Fates(add: Fate, delete: Fate)

  function FatesOf(fs: seq<Fates>, i: nat): Fates { if i < |fs| then fs[i] else Fates(Fine, Fine) }

  predicate Sends(s: Settings, d: Data, f: Fates) { !s.dryRun && Selected(s, d).Some? && f.add != FailsBefore }

  predicate Deletes(s: Settings, d: Data, f: Fates) {
    !s.dryRun && Selected(s, d).Some? && f.add == Fine && s.delete && f.delete != FailsBefore
  }

  /** What goes to the destination for one entry. */
  function Sent(s: Settings, d: Data, f: Fates): seq<Item> {
    if Sends(s, d, f) then [Selected(s, d).value] else []
  }

  /** The items that reach the destination from the first `n` entries, in order. */
  function Delivered(s: Settings, es: seq<Entry<Data>>, fs: seq<Fates>, n: nat): seq<Item>
    requires n <= |es|
  {
    if n == 0 then []
    else Delivered(s, es, fs, n - 1)
         + Sent(s, es[n - 1].fields, FatesOf(fs, n - 1))
  }

  /** The ids that leave the dead letter queue. */
  function Removed(s: Settings, es: seq<Entry<Data>>, fs: seq<Fates>, n: nat): set<nat>
    requires n <= |es|
  {
    if n == 0 then {}
    else Removed(s, es, fs, n - 1)
         + if Deletes(s, es[n - 1].fields, FatesOf(fs, n - 1)) then {es[n - 1].id} else {}
  }

  predicate Counts(s: Settings, d: Data, f: Fates) { Sends(s, d, f) && f.add == Fine }

  /** How many entries count as requeued: those whose addition is known to have gone well. */
  function Counted(s: Settings, es: seq<Entry<Data>>, fs: seq<Fates>, n: nat): nat
    requires n <= |es|
  {
    if n == 0 then 0
    else Counted(s, es, fs, n - 1)
         + if Counts(s, es[n - 1].fields, FatesOf(fs, n - 1)) then 1 else 0
  }

  function FieldsOf<F>(es: seq<Entry<F>>): seq<F> {
    seq(|es|, i requires 0 <= i < |es| => es[i].fields)
  }

  /** The entries whose ids are not among `ids`, in order. */
  function Keep<F>(es: seq<Entry<F>>, ids: set<nat>): seq<Entry<F>> {
    if es == [] then []
    else (if es[0].id in ids then [] else [es[0]]) + Keep(es[1..], ids)
  }

  lemma {:induction false} KeepAll<F>(es: seq<Entry<F>>)
    ensures Keep(es, {}) == es
  {
    if es == [] {
    } else {
      KeepAll(es[1..]);
    }
  }

  lemma {:induction false} KeepOneLess<F>(es: seq<Entry<F>>, ids: set<nat>, id: nat)
    ensures Without(Keep(es, ids), id) == Keep(es, ids + {id})
  {
    if es == [] {
    } else {
      KeepOneLess(es[1..], ids, id);
      if es[0].id !in ids {
        assert Keep(es, ids)[1..] == Keep(es[1..], ids);
      } else {
        assert Keep(es, ids) == Keep(es[1..], ids);
      }
    }
  }

  /** An id leaves the queue only if the run sent its entry on. */
  lemma {:induction false} RemovedOnlyIfSent(s: Settings, es: seq<Entry<Data>>, fs: seq<Fates>, n: nat, id: nat)
    requires n <= |es| && id in Removed(s, es, fs, n)
    ensures exists i :: 0 <= i < n && es[i].id == id
              && Sends(s, es[i].fields, FatesOf(fs, i)) && Selected(s, es[i].fields).value in Delivered(s, es, fs, n)
  {
    if id in Removed(s, es, fs, n - 1) {
      RemovedOnlyIfSent(s, es, fs, n - 1, id);
      var i :| 0 <= i < n - 1 && es[i].id == id
        && Sends(s, es[i].fields, FatesOf(fs, i)) && Selected(s, es[i].fields).value in Delivered(s, es, fs, n - 1);
      assert Selected(s, es[i].fields).value in Delivered(s, es, fs, n);
    } else {
      assert Delivered(s, es, fs, n)[|Delivered(s, es, fs, n)| - 1] == Selected(s, es[n - 1].fields).value;
    }
  }

  lemma {:induction false} KeepExact<F>(es: seq<Entry<F>>, ids: set<nat>, e: Entry<F>)
    ensures e in Keep(es, ids) <==> e in es && e.id !in ids
  {
    if es == [] {
    } else {
      KeepExact(es[1..], ids, e);
      assert e in es <==> e == es[0] || e in es[1..];
    }
  }

  /** The entries that are deleted, in the order in which that happens. */
  function Gone(s: Settings, es: seq<Entry<Data>>, fs: seq<Fates>, n: nat): seq<Entry<Data>>
    requires n <= |es|
  {
    if n == 0 then []
    else Gone(s, es, fs, n - 1) + if Deletes(s, es[n - 1].fields, FatesOf(fs, n - 1)) then [es[n - 1]] else []
  }

  /** What the run wants to send for each entry that it wants to send. */
  function ItemsOf(s: Settings, es: seq<Entry<Data>>, n: nat): seq<Item>
    requires n <= |es|
  {
    if n == 0 then []
    else ItemsOf(s, es, n - 1)
         + if Selected(s, es[n - 1].fields).Some? then [Selected(s, es[n - 1].fields).value] else []
  }

  lemma {:induction false} ItemsPrefix(s: Settings, es: seq<Entry<Data>>, more: seq<Entry<Data>>, n: nat)
    requires n <= |es|
    ensures ItemsOf(s, es + more, n) == ItemsOf(s, es, n)
  {
    if n == 0 {
    } else {
      ItemsPrefix(s, es, more, n - 1);
    }
  }

  /** The items of the entries are selected for each, and delivered as often as they occur. */
  ghost predicate CoveredBy(s: Settings, gone: seq<Entry<Data>>, delivered: seq<Item>) {
    && |ItemsOf(s, gone, |gone|)| == |gone|
    && multiset(ItemsOf(s, gone, |gone|)) <= multiset(delivered)
  }

  lemma DeliveredOneMore(s: Settings, gone: seq<Entry<Data>>, delivered: seq<Item>, e: Entry<Data>)
    requires CoveredBy(s, gone, delivered) && Selected(s, e.fields).Some?
    ensures CoveredBy(s, gone + [e], delivered + [Selected(s, e.fields).value])
  {
    ItemsPrefix(s, gone, [e], |gone|);
    assert ItemsOf(s, gone + [e], |gone| + 1) == ItemsOf(s, gone, |gone|) + [Selected(s, e.fields).value];
  }

  lemma StillCovered(s: Settings, gone: seq<Entry<Data>>, delivered: seq<Item>, more: seq<Item>)
    requires CoveredBy(s, gone, delivered)
    ensures CoveredBy(s, gone, delivered + more)
  {
  }

  /** Each deleted entry was selected, and its item was delivered for it alone. */
  lemma {:induction false} GoneWereDelivered(s: Settings, es: seq<Entry<Data>>, fs: seq<Fates>, n: nat)
    requires n <= |es|
    ensures CoveredBy(s, Gone(s, es, fs, n), Delivered(s, es, fs, n))
  {
    if n == 0 {
    } else {
      GoneWereDelivered(s, es, fs, n - 1);
      var e, f := es[n - 1], FatesOf(fs, n - 1);
      var gone, delivered := Gone(s, es, fs, n - 1), Delivered(s, es, fs, n - 1);
      if Deletes(s, e.fields, f) {
        DeliveredOneMore(s, gone, delivered, e);
      } else {
        StillCovered(s, gone, delivered, Sent(s, e.fields, f));
        assert Gone(s, es, fs, n) == gone;
      }
    }
  }

  // ----- What a run may touch -----

  /** The entry holds a message at all. */
  predicate WellFormed(d: Data) { d.EnvelopeText? || d.DictText? || d.OtherText? }

  /** The entry says why it failed: an envelope with an error, or an object with one that is not null. */
  predicate SaysError(d: Data, text: string) {
    || (d.EnvelopeText? && d.envelope.error == Some(text))
    || (d.DictText? && "error" in d.dict && d.dict["error"] in [JsonText(text), JsonOther(text)])
  }

  /** The filter, if there is one, occurs in what the entry says, up to case. */
  ghost predicate Wanted(filter: Option<string>, d: Data) {
    && WellFormed(d)
    && (filter == None || filter == Some("")
        || exists text :: SaysError(d, text) && ContainsAnyCase(text, filter.value))
  }

  lemma EmptyContainsNothing(filter: string)
    requires filter != ""
    ensures !ContainsAnyCase("", filter)
  {
  }

  lemma SelectedIffWanted(s: Settings, d: Data)
    ensures Selected(s, d).Some? <==> Wanted(s.filter, d)
  {
    if s.filter.Some? && s.filter.value != "" {
      var error := ParseEntry(d).1;
      EmptyContainsNothing(s.filter.value);
      if error.Some? {
        FilterIgnoresCase(s.filter.value, error.value);
        if error.value != "" && WellFormed(d) { assert SaysError(d, error.value); }
      }
      forall text | SaysError(d, text) ensures error == Some(text) {
      }
    }
  }

  /** What is sent for an entry: as it was, but for a task to be upserted. */
  lemma SelectedItem(s: Settings, d: Data)
    requires Selected(s, d).Some?
    ensures var item, rewritten := Selected(s, d).value, s.persist && s.upsert;
            match d
            case EnvelopeText(e) => item.Typed? && (!rewritten ==> item == Typed(e))
                                    && (rewritten ==> item == Transform(Typed(e), true))
            case DictText(m) =>
              && item.LegacyDict?
              && if !rewritten then item.dict == m
                 else && item.dict.Keys == m.Keys + {"op", "on_conflict"} && item.dict["op"] == JsonText("upsert")
                      && (forall k :: k in m && k != "op" ==> item.dict[k] == m[k])
                      && ("on_conflict" !in m ==> item.dict["on_conflict"] == JsonOther("[\"email\"]"))
            case OtherText(v) => item == LegacyValue(v)
            case _ => false
  {
  }

  /** The wanted entries among the first `n`. */
  ghost function WantedOf(s: Settings, es: seq<Entry<Data>>, n: nat): seq<Entry<Data>>
    requires n <= |es|
  {
    if n == 0 then []
    else WantedOf(s, es, n - 1) + if Wanted(s.filter, es[n - 1].fields) then [es[n - 1]] else []
  }

  lemma {:induction false} WantedAreSelected(s: Settings, es: seq<Entry<Data>>, n: nat)
    requires n <= |es|
    ensures |ItemsOf(s, es, n)| == |WantedOf(s, es, n)|
    ensures forall i :: 0 <= i < |WantedOf(s, es, n)| ==>
              Selected(s, WantedOf(s, es, n)[i].fields) == Some(ItemsOf(s, es, n)[i])
  {
    if n == 0 {
    } else {
      WantedAreSelected(s, es, n - 1);
      SelectedIffWanted(s, es[n - 1].fields);
    }
  }

  /** Ids of entries. */
  function IdsOf(es: seq<Entry<Data>>): set<nat> { set i | 0 <= i < |es| :: es[i].id }

  /** A run without failures sends every wanted entry once, in order: `WantedAreSelected` says which they are. */
  lemma {:induction false} HealthyRunSendsWanted(s: Settings, es: seq<Entry<Data>>, n: nat)
    requires n <= |es|
    ensures Delivered(s, es, [], n) == if s.dryRun then [] else ItemsOf(s, es, n)
  {
    if n == 0 {
    } else {
      HealthyRunSendsWanted(s, es, n - 1);
      assert Sent(s, es[n - 1].fields, Fates(Fine, Fine))
          == if s.dryRun || Selected(s, es[n - 1].fields).None? then [] else [Selected(s, es[n - 1].fields).value];
    }
  }

  /** If the run is to delete, it deletes those entries, and no others. */
  lemma {:induction false} HealthyRunRemovesWanted(s: Settings, es: seq<Entry<Data>>, n: nat)
    requires n <= |es|
    ensures Removed(s, es, [], n) == if s.dryRun || !s.delete then {} else IdsOf(WantedOf(s, es, n))
  {
    if n == 0 {
    } else {
      HealthyRunRemovesWanted(s, es, n - 1);
      SelectedIffWanted(s, es[n - 1].fields);
      IdsOneMore(WantedOf(s, es, n - 1), es[n - 1]);
      assert Deletes(s, es[n - 1].fields, FatesOf([], n - 1))
        <==> !s.dryRun && s.delete && Wanted(s.filter, es[n - 1].fields);
      if !Wanted(s.filter, es[n - 1].fields) { assert WantedOf(s, es, n) == WantedOf(s, es, n - 1); }
    }
  }

  /** It counts them too; a dry run counts nothing. */
  lemma {:induction false} HealthyRunCountsWanted(s: Settings, es: seq<Entry<Data>>, n: nat)
    requires n <= |es|
    ensures Counted(s, es, [], n) == if s.dryRun then 0 else |WantedOf(s, es, n)|
  {
    if n == 0 {
    } else {
      HealthyRunCountsWanted(s, es, n - 1);
      SelectedIffWanted(s, es[n - 1].fields);
    }
  }

  lemma IdsOneMore(es: seq<Entry<Data>>, e: Entry<Data>)
    ensures IdsOf(es + [e]) == IdsOf(es) + {e.id}
  {
    forall id | id in IdsOf(es) + {e.id} ensures id in IdsOf(es + [e]) {
      if id == e.id {
        assert (es + [e])[|es|].id == id;
      } else {
        var i :| 0 <= i < |es| && es[i].id == id;
        assert (es + [e])[i].id == id;
      }
    }
  }

  /**
   Whatever fails, a run touches only what its filter accepts: every removed id and every delivered item
   belongs to a wanted entry, and an entry that is not wanted is neither sent nor removed.  A run without
   deletion removes nothing, and a dry run does nothing at all.
   */
  lemma {:induction false} RunObeysFilter(s: Settings, es: seq<Entry<Data>>, fs: seq<Fates>, n: nat)
    requires n <= |es|
    ensures forall id :: id in Removed(s, es, fs, n) ==>
              exists i :: 0 <= i < n && es[i].id == id && Wanted(s.filter, es[i].fields)
    ensures forall x :: x in Delivered(s, es, fs, n) ==>
              exists i :: 0 <= i < n && Wanted(s.filter, es[i].fields) && Selected(s, es[i].fields) == Some(x)
    ensures s.dryRun ==> Delivered(s, es, fs, n) == []
    ensures s.dryRun || !s.delete ==> Removed(s, es, fs, n) == {}
  {
    if n == 0 {
    } else {
      RunObeysFilter(s, es, fs, n - 1);
      SelectedIffWanted(s, es[n - 1].fields);
    }
  }

  lemma UnwantedIsLeftAlone(s: Settings, es: seq<Entry<Data>>, fs: seq<Fates>, i: nat)
    requires i < |es| && Sorted(es) && !Wanted(s.filter, es[i].fields)
    ensures Sent(s, es[i].fields, FatesOf(fs, i)) == []
    ensures es[i].id !in Removed(s, es, fs, |es|)
  {
    SelectedIffWanted(s, es[i].fields);
    RunObeysFilter(s, es, fs, |es|);
    forall j | 0 <= j < |es| && es[j].id == es[i].id ensures j == i {
    }
  }

  /** Deleting an id from an ordered stream takes out its one entry. */
  lemma {:induction false} WithoutOne(es: seq<Entry<Data>>, e: Entry<Data>)
    requires Sorted(es) && e in es
    ensures multiset(es) == multiset(Without(es, e.id)) + multiset{e}
  {
    if es[0].id == e.id {
      assert es[0] == e by {
        var i :| 0 <= i < |es| && es[i] == e;
      }
      WithoutNone(es[1..], e.id);
      assert es == [e] + es[1..];
    } else {
      assert es == [es[0]] + es[1..];
      WithoutOne(es[1..], e);
    }
  }

  lemma {:induction false} WithoutNone(es: seq<Entry<Data>>, id: nat)
    requires forall i :: 0 <= i < |es| ==> es[i].id != id
    ensures Without(es, id) == es
  {
    if es == [] {
    } else {
      WithoutNone(es[1..], id);
    }
  }

  lemma {:induction false} KeepIsSorted(es: seq<Entry<Data>>, ids: set<nat>)
    requires Sorted(es)
    ensures Sorted(Keep(es, ids))
  {
    if es == [] {
    } else {
      KeepIsSorted(es[1..], ids);
      if es[0].id !in ids {
        forall e | e in Keep(es[1..], ids) ensures e in es[1..] { KeepExact(es[1..], ids, e); }
        FirstIsLeast(es, Keep(es[1..], ids));
      }
    }
  }

  lemma {:induction false} RemovedIds(s: Settings, es: seq<Entry<Data>>, fs: seq<Fates>, n: nat, i: nat)
    requires Sorted(es) && n <= i < |es|
    ensures es[i].id !in Removed(s, es, fs, n)
  {
    if n == 0 {
    } else {
      RemovedIds(s, es, fs, n - 1, i);
    }
  }

  lemma OneMoreEntry(s: Settings, dlq: seq<Entry<Data>>, es: seq<Entry<Data>>, fs: seq<Fates>, i: nat)
    requires i < |es|
    ensures var f := FatesOf(fs, i);
            && Delivered(s, es, fs, i + 1) == Delivered(s, es, fs, i) + Sent(s, es[i].fields, f)
            && Keep(dlq, Removed(s, es, fs, i + 1))
               == (if Deletes(s, es[i].fields, f) then Without(Keep(dlq, Removed(s, es, fs, i)), es[i].id)
                   else Keep(dlq, Removed(s, es, fs, i)))
            && Counted(s, es, fs, i + 1) == Counted(s, es, fs, i) + if Counts(s, es[i].fields, f) then 1 else 0
  {
    KeepOneLess(dlq, Removed(s, es, fs, i), es[i].id);
    assert Removed(s, es, fs, i) + {} == Removed(s, es, fs, i);
  }

  /** The queue is split into what is kept and what has gone, entry by entry. */
  ghost predicate Split(dlq: seq<Entry<Data>>, kept: seq<Entry<Data>>, gone: seq<Entry<Data>>) {
    multiset(dlq) == multiset(kept) + multiset(gone)
  }

  lemma OneMoreGone(dlq: seq<Entry<Data>>, kept: seq<Entry<Data>>, gone: seq<Entry<Data>>, e: Entry<Data>)
    requires Split(dlq, kept, gone) && Sorted(kept) && e in kept
    ensures Split(dlq, Without(kept, e.id), gone + [e])
  {
    WithoutOne(kept, e);
  }

  lemma StillKept(s: Settings, dlq: seq<Entry<Data>>, es: seq<Entry<Data>>, fs: seq<Fates>, n: nat)
    requires Sorted(dlq) && es <= dlq && n < |es|
    ensures Sorted(Keep(dlq, Removed(s, es, fs, n))) && es[n] in Keep(dlq, Removed(s, es, fs, n))
  {
    RemovedIds(s, es, fs, n, n);
    assert es[n] == dlq[n];
    KeepExact(dlq, Removed(s, es, fs, n), es[n]);
    KeepIsSorted(dlq, Removed(s, es, fs, n));
  }

  lemma NothingGone(dlq: seq<Entry<Data>>)
    ensures Split(dlq, dlq, [])
  {
  }

  lemma GoneOneMore(s: Settings, es: seq<Entry<Data>>, fs: seq<Fates>, n: nat)
    requires n < |es|
    ensures Gone(s, es, fs, n + 1)
         == if Deletes(s, es[n].fields, FatesOf(fs, n)) then Gone(s, es, fs, n) + [es[n]] else Gone(s, es, fs, n)
  {
  }

  lemma SplitOneMore(s: Settings, dlq: seq<Entry<Data>>, es: seq<Entry<Data>>, fs: seq<Fates>, n: nat)
    requires Sorted(dlq) && es <= dlq && n < |es|
    requires Split(dlq, Keep(dlq, Removed(s, es, fs, n)), Gone(s, es, fs, n))
    ensures Split(dlq, Keep(dlq, Removed(s, es, fs, n + 1)), Gone(s, es, fs, n + 1))
  {
    OneMoreEntry(s, dlq, es, fs, n);
    GoneOneMore(s, es, fs, n);
    if Deletes(s, es[n].fields, FatesOf(fs, n)) {
      StillKept(s, dlq, es, fs, n);
      OneMoreGone(dlq, Keep(dlq, Removed(s, es, fs, n)), Gone(s, es, fs, n), es[n]);
    }
  }

  lemma {:induction false} KeptAndGone(
    s: Settings, dlq: seq<Entry<Data>>, es: seq<Entry<Data>>, fs: seq<Fates>, n: nat)
    requires Sorted(dlq) && es <= dlq && n <= |es|
    ensures Split(dlq, Keep(dlq, Removed(s, es, fs, n)), Gone(s, es, fs, n))
  {
    if n == 0 {
      KeepAll(dlq);
      NothingGone(dlq);
    } else {
      KeptAndGone(s, dlq, es, fs, n - 1);
      SplitOneMore(s, dlq, es, fs, n - 1);
    }
  }

  /**
   The run over the first `limit` entries loses nothing, whatever fails: the queue is split into what it
   keeps and what has gone, and each entry that has gone was delivered for itself, however many are
   alike.
   */
  lemma NothingLost(s: Settings, dlq: seq<Entry<Data>>, fs: seq<Fates>)
    requires Sorted(dlq)
    ensures var es := Take(dlq, s.limit);
            var gone := Gone(s, es, fs, |es|);
            && Split(dlq, Keep(dlq, Removed(s, es, fs, |es|)), gone)
            && CoveredBy(s, gone, Delivered(s, es, fs, |es|))
  {
    var es := Take(dlq, s.limit);
    KeptAndGone(s, dlq, es, fs, |es|);
    GoneWereDelivered(s, es, fs, |es|);
  }

  /** Every counted entry has been delivered; the rest of the deliveries went unacknowledged. */
  lemma {:induction false} CountedAreDelivered(s: Settings, es: seq<Entry<Data>>, fs: seq<Fates>, n: nat)
    requires n <= |es|
    ensures |Removed(s, es, fs, n)| <= Counted(s, es, fs, n) <= |Delivered(s, es, fs, n)|
  {
    if n == 0 {
    } else {
      CountedAreDelivered(s, es, fs, n - 1);
    }
  }

  class Broker {
    var dlq: Stream<Data>
    var destination: Stream<Item>

    constructor (dlq: Stream<Data>, destination: Stream<Item>)
      ensures this.dlq == dlq && this.destination == destination
    {
      this.dlq, this.destination := dlq, destination;
    }
  }

  lemma FieldsOfSnoc<F>(es: seq<Entry<F>>, e: Entry<F>)
    ensures FieldsOf(es + [e]) == FieldsOf(es) + [e.fields]
  {
  }

  /** The body of the loop, for one entry; tells whether the entry counts as requeued. */
  method RequeueEntry(b: Broker, s: Settings, e: Entry<Data>, f: Fates, now: nat) returns (counted: bool)
    modifies b
    ensures FieldsOf(b.destination.entries)
         == FieldsOf(old(b.destination.entries)) + Sent(s, e.fields, f)
    ensures b.dlq.entries
         == if Deletes(s, e.fields, f) then Without(old(b.dlq.entries), e.id) else old(b.dlq.entries)
    ensures counted <==> Counts(s, e.fields, f)
    ensures s.dryRun ==> b.dlq == old(b.dlq) && b.destination == old(b.destination)
  {
    var (item, error) := ParseEntry(e.fields);
    if item.None? {
      return false;
    }
    if !PassesFilter(s.filter, error) {
      return false;
    }
    var toSend := if s.persist then Transform(item.value, s.upsert) else item.value;
    if s.dryRun {
      return false;
    }
    if f.add != FailsBefore {
      var id := NextId(b.destination.lastId, now);
      FieldsOfSnoc(b.destination.entries, Entry(id, toSend));
      b.destination := b.destination.Add(id, toSend);
    }
    if f.add != Fine {
      return false;
    }
    if s.delete && f.delete != FailsBefore {
      b.dlq := b.dlq.Delete(e.id);
    }
    return true;
  }

  /** The first `i` entries of the run have been dealt with. */
  ghost predicate Progress(
    s: Settings, dlq0: seq<Entry<Data>>, dest0: seq<Entry<Item>>, es: seq<Entry<Data>>, fs: seq<Fates>, i: nat,
    dlq: seq<Entry<Data>>, dest: seq<Entry<Item>>, requeued: nat)
    requires i <= |es|
  {
    && FieldsOf(dest) == FieldsOf(dest0) + Delivered(s, es, fs, i)
    && dlq == Keep(dlq0, Removed(s, es, fs, i))
    && requeued == Counted(s, es, fs, i)
  }

  lemma ProgressStep(
    s: Settings, dlq0: seq<Entry<Data>>, dest0: seq<Entry<Item>>, es: seq<Entry<Data>>, fs: seq<Fates>, i: nat,
    dlq: seq<Entry<Data>>, dest: seq<Entry<Item>>, requeued: nat, dest': seq<Entry<Item>>)
    requires i < |es| && Progress(s, dlq0, dest0, es, fs, i, dlq, dest, requeued)
    requires FieldsOf(dest') == FieldsOf(dest) + Sent(s, es[i].fields, FatesOf(fs, i))
    ensures Progress(s, dlq0, dest0, es, fs, i + 1,
                     if Deletes(s, es[i].fields, FatesOf(fs, i)) then Without(dlq, es[i].id) else dlq,
                     dest', requeued + if Counts(s, es[i].fields, FatesOf(fs, i)) then 1 else 0)
  {
    OneMoreEntry(s, dlq0, es, fs, i);
  }

  /** One entry of the run, and the count with it. */
  method RequeueNext(b: Broker, s: Settings, es: seq<Entry<Data>>, fs: seq<Fates>, i: nat, now: nat, sofar: nat,
                     ghost dlq0: seq<Entry<Data>>, ghost dest0: seq<Entry<Item>>)
    returns (requeued: nat)
    requires i < |es| && Progress(s, dlq0, dest0, es, fs, i, b.dlq.entries, b.destination.entries, sofar)
    modifies b
    ensures Progress(s, dlq0, dest0, es, fs, i + 1, b.dlq.entries, b.destination.entries, requeued)
    ensures s.dryRun ==> b.dlq == old(b.dlq) && b.destination == old(b.destination)
  {
    ghost var dlq, dest := b.dlq.entries, b.destination.entries;
    var counted := RequeueEntry(b, s, es[i], FatesOf(fs, i), now);
    requeued := if counted then sofar + 1 else sofar;
    ProgressStep(s, dlq0, dest0, es, fs, i, dlq, dest, sofar, b.destination.entries);
  }

  /**
   One queue of the run, `readable` telling whether its entries could be read.  The destination
   gains exactly the delivered items, in order; the queue loses exactly the removed ids.
   */
  method RequeueOne(b: Broker, s: Settings, readable: bool, fs: seq<Fates>, now: nat) returns (requeued: nat)
    modifies b
    ensures !readable ==> b.dlq == old(b.dlq) && b.destination == old(b.destination) && requeued == 0
    ensures readable ==>
              var es := Take(old(b.dlq.entries), s.limit);
              && FieldsOf(b.destination.entries)
                 == FieldsOf(old(b.destination.entries)) + Delivered(s, es, fs, |es|)
              && b.dlq.entries == Keep(old(b.dlq.entries), Removed(s, es, fs, |es|))
              && requeued == Counted(s, es, fs, |es|)
    ensures s.dryRun ==> b.dlq == old(b.dlq) && b.destination == old(b.destination)
  {
    requeued := 0;
    if !readable {
      return;
    }
    var es := Take(b.dlq.entries, s.limit);
    ghost var dlq0, dest0 := b.dlq.entries, b.destination.entries;
    KeepAll(dlq0);
    for i := 0 to |es|
      invariant Progress(s, dlq0, dest0, es, fs, i, b.dlq.entries, b.destination.entries, requeued)
      invariant s.dryRun ==> b.dlq == old(b.dlq) && b.destination == old(b.destination)
    {
      requeued := RequeueNext(b, s, es, fs, i, now, requeued, dlq0, dest0);
    }
  }
}
