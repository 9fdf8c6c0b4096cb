/**
 The stream renaming script (scripts/redis/migrate_redis_streams.py): a paged copy with an
 exclusive cursor, followed by the removal of the old stream, for every row of a table in which
 several old names may share a target.

 Any command may fail, before or after it has taken effect on the server.
 */
module Migrations {
  import opened Options
  import opened Streams

  type Fields = map<string, string>
  type Database = map<string, Stream<Fields>>

  const PAGE: nat := 100

  function LastId(db: Database, name: string): nat { if name in db then db[name].lastId else 0 }

  function EntriesOf(db: Database, name: string): seq<Entry<Fields>> {
    if name in db then db[name].entries else []
  }

  function StreamOf(db: Database, name: string): Stream<Fields> {
    if name in db then db[name] else Stream([], 0)
  }

  ghost predicate ValidDatabase(db: Database) {
    forall name :: name in db ==> db[name].Valid()
  }

  // ----- What a migration does -----

  /** `target` with `es` appended under their own ids. */
  function Appended(target: Stream<Fields>, es: seq<Entry<Fields>>): Stream<Fields> {
    if es == [] then target else Stream(target.entries + es, es[|es| - 1].id)
  }

  datatype Result = Count(n: nat) | Refused | Raised

  /** One row without failing commands: nothing to do, refused as a whole, or moved as a whole. */
  function Migrated(db: Database, from: string, to: string): (Database, Result) {
    var es := EntriesOf(db, from);
    if es == [] then (db, Count(0))
    else if es[0].id <= LastId(db, to) then (db, Refused)
    else (db[to := Appended(StreamOf(db, to), es)] - {from}, Count(|es|))
  }

  /** One row cut short: the first `copied` entries are in the target too, the old stream stands. */
  function Copied(db: Database, from: string, to: string, copied: nat): Database
    requires copied <= |EntriesOf(db, from)|
  {
    if copied == 0 then db else db[to := Appended(StreamOf(db, to), EntriesOf(db, from)[..copied])]
  }

  /**
   All or nothing: a non-empty stream is moved exactly when every one of its ids is new to the
   target, although only the first is ever found out; its entries then follow the target's own,
   with their ids, fields and order, and otherwise nothing changes.
   */
  lemma MovedIffEveryIdIsNew(db: Database, from: string, to: string)
    requires ValidDatabase(db) && EntriesOf(db, from) != []
    ensures var es := EntriesOf(db, from);
            var (db', res) := Migrated(db, from, to);
            if forall i :: 0 <= i < |es| ==> es[i].id > LastId(db, to)
            then res == Count(|es|) && from !in db' && to in db' && db'[to].Valid()
                 && db'[to].entries == EntriesOf(db, to) + es && db' - {to} == db - {from, to}
            else res == Refused && db' == db
  {
    var es := EntriesOf(db, from);
    if es[0].id > LastId(db, to) {
      assert forall i :: 0 <= i < |es| ==> es[0].id <= es[i].id;
      AppendedIsValid(StreamOf(db, to), es);
    }
  }

  lemma AppendedIsValid(target: Stream<Fields>, es: seq<Entry<Fields>>)
    requires target.Valid() && Sorted(es)
    requires es != [] ==> es[0].id > target.lastId
    ensures Appended(target, es).Valid()
  {
  }

  // ----- The database object -----

  class RedisDb {
    var streams: Database
    /** How the coming commands go; those beyond the list go as they should. */
    var fates: seq<Fate>

    ghost predicate Valid()
      reads this
    {
      ValidDatabase(streams)
    }

    /** No command will fail. */
    ghost predicate Healthy()
      reads this
    {
      fates == []
    }

    function NextFate(): Fate
      reads this
    {
      if fates == [] then Fine else fates[0]
    }

    method Draw() returns (f: Fate)
      modifies this`fates
      ensures f == old(NextFate())
      ensures old(Healthy()) ==> Healthy() && f == Fine
    {
      f := NextFate();
      if fates != [] {
        fates := fates[1..];
      }
    }

    method Exists(name: string) returns (r: Option<bool>)
      modifies this`fates
      ensures old(Healthy()) ==> Healthy() && r.Some?
      ensures r.Some? ==> r.value == (name in streams)
    {
      var f := Draw();
      r := if f == Fine then Some(name in streams) else None;
    }

    method XLen(name: string) returns (r: Option<nat>)
      modifies this`fates
      ensures old(Healthy()) ==> Healthy() && r.Some?
      ensures r.Some? ==> r.value == |EntriesOf(streams, name)|
    {
      var f := Draw();
      r := if f == Fine then Some(|EntriesOf(streams, name)|) else None;
    }

    method XRangeAfter(name: string, cursor: nat, count: nat) returns (r: Option<seq<Entry<Fields>>>)
      modifies this`fates
      ensures old(Healthy()) ==> Healthy() && r.Some?
      ensures r.Some? ==> r.value == Take(EntriesAfter(EntriesOf(streams, name), cursor), count)
    {
      var f := Draw();
      r := if f == Fine then Some(Take(EntriesAfter(EntriesOf(streams, name), cursor), count)) else None;
    }

    method XAdd(name: string, id: nat, fields: Fields) returns (ok: bool)
      modifies this
      ensures old(Healthy()) ==> Healthy()
      ensures ok <==> StreamOf(old(streams), name).CanAdd(id) && old(NextFate()) == Fine
      ensures streams == if StreamOf(old(streams), name).CanAdd(id) && old(NextFate()) != FailsBefore
                         then old(streams)[name := StreamOf(old(streams), name).Add(id, fields)]
                         else old(streams)
    {
      var f := Draw();
      var s := StreamOf(streams, name);
      if s.CanAdd(id) && f != FailsBefore {
        streams := streams[name := s.Add(id, fields)];
      }
      ok := s.CanAdd(id) && f == Fine;
    }

    method Delete(name: string) returns (ok: bool)
      modifies this
      ensures old(Healthy()) ==> Healthy()
      ensures ok <==> old(NextFate()) == Fine
      ensures streams == if old(NextFate()) != FailsBefore then old(streams) - {name} else old(streams)
    {
      var f := Draw();
      if f != FailsBefore {
        streams := streams - {name};
      }
      ok := f == Fine;
    }
  }

  lemma AppendOneMore(db: Database, from: string, to: string, i: nat)
    requires ValidDatabase(db) && from != to && i < |EntriesOf(db, from)|
    requires EntriesOf(db, from)[0].id > LastId(db, to)
    ensures var e := EntriesOf(db, from)[i];
            var s := StreamOf(Copied(db, from, to, i), to);
            && s.CanAdd(e.id)
            && Copied(db, from, to, i + 1) == Copied(db, from, to, i)[to := s.Add(e.id, e.fields)]
            && EntriesOf(Copied(db, from, to, i), from) == EntriesOf(db, from)
  {
    var es, target := EntriesOf(db, from), StreamOf(db, to);
    assert es[..i + 1] == es[..i] + [es[i]];
    assert target.entries + es[..i + 1] == target.entries + es[..i] + [es[i]];
    if i == 0 {
      assert target.entries + es[..i] == target.entries;
    }
    var s := StreamOf(Copied(db, from, to, i), to);
    assert s.entries == target.entries + es[..i];
    assert Copied(db, from, to, i + 1)
        == Copied(db, from, to, i)[to := Stream(target.entries + es[..i + 1], es[i].id)];
  }

  lemma CopyRefused(db: Database, from: string, to: string)
    requires ValidDatabase(db) && EntriesOf(db, from) != []
    requires from == to || EntriesOf(db, from)[0].id <= LastId(db, to)
    ensures !StreamOf(db, to).CanAdd(EntriesOf(db, from)[0].id)
    ensures Migrated(db, from, to) == (db, Refused)
  {
  }

  lemma CopiedIsValid(db: Database, from: string, to: string, i: nat)
    requires ValidDatabase(db) && i <= |EntriesOf(db, from)|
    requires i > 0 ==> EntriesOf(db, from)[0].id > LastId(db, to)
    ensures ValidDatabase(Copied(db, from, to, i))
  {
    AppendedIsValid(StreamOf(db, to), EntriesOf(db, from)[..i]);
  }

  /**
   The outcome of a row whatever fails.  Either the first `copied` old entries are in the target as
   well and the old stream is whole, or all of them are in the target and the old stream is gone.
   */
  ghost predicate RowOutcome(db: Database, db': Database, from: string, to: string, copied: nat) {
    && copied <= |EntriesOf(db, from)|
    && (copied > 0 ==> from != to && EntriesOf(db, from)[0].id > LastId(db, to))
    && (|| db' == Copied(db, from, to, copied)
        || (0 < copied == |EntriesOf(db, from)| && db' == Migrated(db, from, to).0))
  }

  /** The first `i` old entries are in the target, and the copy can go on from there. */
  ghost predicate CopiedSoFar(db: Database, now: Database, from: string, to: string, i: nat) {
    && i <= |EntriesOf(db, from)|
    && EntriesOf(now, from) == EntriesOf(db, from)
    && now == Copied(db, from, to, i)
    && (i > 0 ==> from != to && EntriesOf(db, from)[0].id > LastId(db, to))
  }

  /** The next XADD of a copy succeeds unless the copy is refused from the start. */
  lemma NextAdd(db: Database, now: Database, from: string, to: string, i: nat, e: Entry<Fields>)
    requires ValidDatabase(db) && CopiedSoFar(db, now, from, to, i)
    requires i < |EntriesOf(db, from)| && e == EntriesOf(db, from)[i]
    ensures if from != to && EntriesOf(db, from)[0].id > LastId(db, to)
            then StreamOf(now, to).CanAdd(e.id)
                 && CopiedSoFar(db, now[to := StreamOf(now, to).Add(e.id, e.fields)], from, to, i + 1)
            else i == 0 && !StreamOf(now, to).CanAdd(e.id) && Migrated(db, from, to) == (db, Refused)
  {
    if from != to && EntriesOf(db, from)[0].id > LastId(db, to) {
      AppendOneMore(db, from, to, i);
    } else {
      CopyRefused(db, from, to);
    }
  }

  /**
   The inner loop: one page of entries is added to the target, under their own ids.  `copied` of
   them have got there, one more than counted when an XADD failed after taking effect.
   */
  method CopyPage(r: RedisDb, from: string, to: string, page: seq<Entry<Fields>>, ghost db: Database, first: nat)
    returns (ok: bool, migrated: nat, ghost copied: nat)
    requires ValidDatabase(db) && CopiedSoFar(db, r.streams, from, to, first)
    requires first + |page| <= |EntriesOf(db, from)|
    requires page == EntriesOf(db, from)[first..first + |page|]
    modifies r
    ensures old(r.Healthy()) ==> r.Healthy()
    ensures CopiedSoFar(db, r.streams, from, to, copied)
    ensures ok ==> copied == migrated == first + |page|
    ensures !ok && old(r.Healthy()) ==> (r.streams, Refused) == Migrated(db, from, to)
  {
    migrated := first;
    for j := 0 to |page|
      invariant migrated == first + j
      invariant CopiedSoFar(db, r.streams, from, to, migrated)
      invariant old(r.Healthy()) ==> r.Healthy()
    {
      var e := page[j];
      NextAdd(db, r.streams, from, to, migrated, e);
      ghost var before := r.streams;
      var added := r.XAdd(to, e.id, e.fields);
      if !added {
        return false, migrated, if r.streams == before then migrated else migrated + 1;
      }
      migrated := migrated + 1;
    }
    return true, migrated, migrated;
  }

  ghost predicate Ordered(es: seq<Entry<Fields>>) {
    Sorted(es) && forall j :: 0 <= j < |es| ==> es[j].id > 0
  }

  lemma PageContinues(es: seq<Entry<Fields>>, i: nat, page: seq<Entry<Fields>>)
    requires Ordered(es) && i <= |es| && page == Take(EntriesAfter(es, CursorAt(es, i)), PAGE)
    ensures i + |page| <= |es| && page == es[i..i + |page|]
    ensures if page == [] then i == |es| else CursorAt(es, i + |page|) == page[|page| - 1].id
  {
    CursorContinues(es, i);
  }

  /** The next page: what follows the first `i` entries, when the cursor stands behind them. */
  method NextPage(r: RedisDb, from: string, lastId: nat, ghost es: seq<Entry<Fields>>, ghost i: nat)
    returns (page: Option<seq<Entry<Fields>>>)
    requires EntriesOf(r.streams, from) == es && Ordered(es) && i <= |es|
    requires lastId == CursorAt(es, i)
    modifies r`fates
    ensures old(r.Healthy()) ==> r.Healthy() && page.Some?
    ensures page.Some? ==>
              var n := |page.value|;
              && i + n <= |es| && page.value == es[i..i + n]
              && (if n == 0 then i == |es| else CursorAt(es, i + n) == page.value[n - 1].id)
  {
    page := r.XRangeAfter(from, lastId, PAGE);
    if page.Some? { PageContinues(es, i, page.value); }
  }

  lemma AllCopied(db: Database, now: Database, from: string, to: string)
    requires ValidDatabase(db) && CopiedSoFar(db, now, from, to, |EntriesOf(db, from)|) && EntriesOf(db, from) != []
    ensures (now - {from}, Count(|EntriesOf(db, from)|)) == Migrated(db, from, to)
    ensures ValidDatabase(now - {from}) && RowOutcome(db, now - {from}, from, to, |EntriesOf(db, from)|)
  {
    MoveIsCopyAndDelete(db, from, to);
  }

  /** The outer loop: page after page from the exclusive cursor, until a page is empty. */
  method CopyPages(r: RedisDb, from: string, to: string)
    returns (stop: Option<Result>, migrated: nat, ghost copied: nat)
    requires r.Valid()
    modifies r
    ensures old(r.Healthy()) ==> r.Healthy()
    ensures CopiedSoFar(old(r.streams), r.streams, from, to, copied)
    ensures stop.None? ==> copied == migrated == |EntriesOf(old(r.streams), from)|
    ensures stop.Some? ==> !stop.value.Count?
    ensures stop.Some? && old(r.Healthy()) ==> (r.streams, stop.value) == Migrated(old(r.streams), from, to)
  {
    ghost var db, es := r.streams, EntriesOf(r.streams, from);
    assert Ordered(es);
    migrated := 0;
    var lastId := 0;
    while true
      invariant old(r.Healthy()) ==> r.Healthy()
      invariant CopiedSoFar(db, r.streams, from, to, migrated)
      invariant migrated <= |es| && lastId == CursorAt(es, migrated)
      decreases |es| - migrated
    {
      var page := NextPage(r, from, lastId, es, migrated);
      if page.None? { return Some(Raised), migrated, migrated; }
      if page.value == [] { return None, migrated, migrated; }
      var ok;
      ok, migrated, copied := CopyPage(r, from, to, page.value, db, migrated);
      if !ok { return Some(Refused), migrated, copied; }
      lastId := page.value[|page.value| - 1].id;
    }
  }

  /** The paged copy, and the removal of the old stream. */
  method MigrateStream(r: RedisDb, from: string, to: string) returns (res: Result, ghost copied: nat)
    requires r.Valid()
    modifies r
    ensures r.Valid()
    ensures old(r.Healthy()) ==> r.Healthy() && (r.streams, res) == Migrated(old(r.streams), from, to)
    ensures RowOutcome(old(r.streams), r.streams, from, to, copied)
    ensures res.Count? ==> (r.streams, res) == Migrated(old(r.streams), from, to)
  {
    ghost var db := r.streams;
    var found := r.Exists(from);
    if found.None? { return Raised, 0; }
    if !found.value { return Count(0), 0; }
    var length := r.XLen(from);
    if length.None? { return Raised, 0; }
    if length.value == 0 { return Count(0), 0; }
    var stop, migrated;
    stop, migrated, copied := CopyPages(r, from, to);
    CopiedIsValid(db, from, to, copied);
    if stop.Some? { return stop.value, copied; }
    AllCopied(db, r.streams, from, to);
    var deleted := r.Delete(from);
    if !deleted { return Raised, copied; }
    return Count(migrated), copied;
  }

  // ----- The table -----

  type Table = seq<(string, string)>

  const TENANT: string := "agentic-dev"

  const MIGRATIONS: Table := [
    (TENANT + ":leads:tasks", TENANT + ":orchestrators:leads:tasks"),
    (TENANT + ":leads:results", TENANT + ":orchestrators:leads:results"),
    (TENANT + ":outreach:tasks", TENANT + ":orchestrators:outbound:tasks"),
    (TENANT + ":outreach:results", TENANT + ":orchestrators:outbound:results"),
    (TENANT + ":orchestrators:outreach:tasks", TENANT + ":orchestrators:outbound:tasks"),
    (TENANT + ":orchestrators:outreach:results", TENANT + ":orchestrators:outbound:results"),
    (TENANT + ":rag:tasks", TENANT + ":agents:rag:tasks"),
    (TENANT + ":rag:results", TENANT + ":agents:rag:results"),
    (TENANT + ":copy:tasks", TENANT + ":agents:copywriter:tasks"),
    (TENANT + ":copy:results", TENANT + ":agents:copywriter:results"),
    (TENANT + ":persist:tasks", TENANT + ":agents:persistence:tasks"),
    (TENANT + ":persist:results", TENANT + ":agents:persistence:results")
  ]

  /** No target is itself to be moved. */
  ghost predicate Flat(t: Table) {
    forall i, j :: 0 <= i < |t| && 0 <= j < |t| ==> t[i].0 != t[j].1
  }

  datatype Totals = Totals(moved: nat, failed: nat)

  function Tally(sofar: Totals, res: Result): Totals {
    match res
    case Count(n) => Totals(sofar.moved + n, sofar.failed)
    case _ => Totals(sofar.moved, sofar.failed + 1)
  }

  /** The first `k` rows without failing commands. */
  function MigratedRows(db: Database, t: Table, k: nat): (Database, Totals)
    requires k <= |t|
  {
    if k == 0 then (db, Totals(0, 0))
    else
      var (db', sofar) := MigratedRows(db, t, k - 1);
      var (db'', res) := Migrated(db', t[k - 1].0, t[k - 1].1);
      (db'', Tally(sofar, res))
  }

  // ----- Conservation -----

  /** Every message in the database, with its id and fields, over all streams. */
  ghost function Messages(db: Database): multiset<Entry<Fields>> {
    if db == map[] then multiset{}
    else
      var name :| name in db;
      multiset(db[name].entries) + Messages(db - {name})
  }

  lemma {:induction false} MessagesWithout(db: Database, name: string)
    requires name in db
    ensures Messages(db) == multiset(db[name].entries) + Messages(db - {name})
    decreases |db|
  {
    var other :| other in db && Messages(db) == multiset(db[other].entries) + Messages(db - {other});
    if other != name {
      MessagesWithout(db - {other}, name);
      MessagesWithout(db - {name}, other);
      assert db - {other} - {name} == db - {name} - {other};
    }
  }

  /** The messages of a database split over one name that may be absent. */
  lemma MessagesSplit(db: Database, name: string)
    ensures Messages(db) == multiset(EntriesOf(db, name)) + Messages(db - {name})
  {
    if name in db {
      MessagesWithout(db, name);
    } else {
      assert db - {name} == db;
    }
  }

  lemma ReplacedMessages(db: Database, name: string, s: Stream<Fields>)
    ensures Messages(db[name := s]) + multiset(EntriesOf(db, name)) == Messages(db) + multiset(s.entries)
  {
    var db' := db[name := s];
    MessagesSplit(db, name);
    MessagesSplit(db', name);
    assert db' - {name} == db - {name};
  }

  lemma Cancel<T>(a: multiset<T>, b: multiset<T>, c: multiset<T>)
    requires a + c == b + c
    ensures a == b
  {
    forall x ensures a[x] == b[x] {
      assert (a + c)[x] == (b + c)[x];
    }
  }

  lemma CopyAddsMessages(db: Database, from: string, to: string, copied: nat)
    requires copied <= |EntriesOf(db, from)|
    ensures Messages(Copied(db, from, to, copied))
         == Messages(db) + multiset(EntriesOf(db, from)[..copied])
  {
    if copied > 0 {
      var es := EntriesOf(db, from)[..copied];
      ReplacedMessages(db, to, Appended(StreamOf(db, to), es));
      assert multiset(StreamOf(db, to).entries + es) == multiset(EntriesOf(db, to)) + multiset(es);
      Cancel(Messages(Copied(db, from, to, copied)), Messages(db) + multiset(es), multiset(EntriesOf(db, to)));
    }
  }

  lemma MoveIsCopyAndDelete(db: Database, from: string, to: string)
    requires from != to
    requires EntriesOf(db, from) != [] && EntriesOf(db, from)[0].id > LastId(db, to)
    ensures var copy := Copied(db, from, to, |EntriesOf(db, from)|);
            && Migrated(db, from, to).0 == copy - {from}
            && EntriesOf(copy, from) == EntriesOf(db, from)
  {
    var es := EntriesOf(db, from);
    assert es[..|es|] == es;
  }

  lemma MoveConservesMessages(db: Database, from: string, to: string)
    requires from != to
    ensures Messages(Migrated(db, from, to).0) == Messages(db)
  {
    var es := EntriesOf(db, from);
    if es != [] && es[0].id > LastId(db, to) {
      MoveIsCopyAndDelete(db, from, to);
      CopyAddsMessages(db, from, to, |es|);
      MessagesSplit(Copied(db, from, to, |es|), from);
      assert es[..|es|] == es;
      Cancel(Messages(Migrated(db, from, to).0), Messages(db), multiset(es));
    }
  }

  /** Whatever fails, a row loses no message. */
  lemma RowLosesNothing(db: Database, db': Database, from: string, to: string, copied: nat)
    requires RowOutcome(db, db', from, to, copied)
    ensures Messages(db) <= Messages(db')
  {
    if db' == Copied(db, from, to, copied) {
      CopyAddsMessages(db, from, to, copied);
    } else {
      MoveConservesMessages(db, from, to);
    }
  }

  /** A row that counts has moved all it counts, or found nothing to move. */
  ghost predicate RowResult(db: Database, db': Database, from: string, to: string, copied: nat, res: Result) {
    RowOutcome(db, db', from, to, copied) && (res.Count? ==> (db', res) == Migrated(db, from, to))
  }

  ghost predicate RowAt(t: Table, dbs: seq<Database>, copied: seq<nat>, results: seq<Result>, k: nat)
    requires |dbs| == |copied| + 1 && |results| == |copied| <= |t| && k < |copied|
  {
    RowResult(dbs[k], dbs[k + 1], t[k].0, t[k].1, copied[k], results[k])
  }

  /** The databases between the rows, how many messages each row has copied, and what it returned. */
  ghost predicate Trail(t: Table, dbs: seq<Database>, copied: seq<nat>, results: seq<Result>) {
    && |dbs| == |copied| + 1 && |results| == |copied| <= |t|
    && forall k :: 0 <= k < |copied| ==> RowAt(t, dbs, copied, results, k)
  }

  function TotalsOf(results: seq<Result>, k: nat): Totals
    requires k <= |results|
  {
    if k == 0 then Totals(0, 0) else Tally(TotalsOf(results, k - 1), results[k - 1])
  }

  lemma {:induction false} TotalsPrefix(results: seq<Result>, res: Result, k: nat)
    requires k <= |results|
    ensures TotalsOf(results + [res], k) == TotalsOf(results, k)
  {
    if k == 0 {
    } else {
      TotalsPrefix(results, res, k - 1);
    }
  }

  ghost predicate ExactAt(t: Table, dbs: seq<Database>, results: seq<Result>, k: nat)
    requires |dbs| == |results| + 1 && |results| <= |t| && k < |results|
  {
    (dbs[k + 1], results[k]) == Migrated(dbs[k], t[k].0, t[k].1)
  }

  /** Every row did what it does without failing commands. */
  ghost predicate AllExact(t: Table, dbs: seq<Database>, results: seq<Result>)
    requires |dbs| == |results| + 1 && |results| <= |t|
  {
    forall k :: 0 <= k < |results| ==> ExactAt(t, dbs, results, k)
  }

  lemma TrailOneMore(
    t: Table, dbs: seq<Database>, copied: seq<nat>, results: seq<Result>, db: Database, n: nat, res: Result)
    requires Trail(t, dbs, copied, results) && |results| < |t|
    requires RowResult(dbs[|results|], db, t[|results|].0, t[|results|].1, n, res)
    ensures Trail(t, dbs + [db], copied + [n], results + [res])
  {
    forall k | 0 <= k < |results| ensures RowAt(t, dbs + [db], copied + [n], results + [res], k) {
      assert RowAt(t, dbs, copied, results, k);
    }
  }

  lemma ExactOneMore(t: Table, dbs: seq<Database>, results: seq<Result>, db: Database, res: Result)
    requires |dbs| == |results| + 1 && |results| < |t| && AllExact(t, dbs, results)
    requires (db, res) == Migrated(dbs[|results|], t[|results|].0, t[|results|].1)
    ensures AllExact(t, dbs + [db], results + [res])
  {
    forall k | 0 <= k < |results| ensures ExactAt(t, dbs + [db], results + [res], k) {
      assert ExactAt(t, dbs, results, k);
    }
  }

  lemma {:induction false} TrailLosesNothing(
    t: Table, dbs: seq<Database>, copied: seq<nat>, results: seq<Result>, k: nat)
    requires Trail(t, dbs, copied, results) && k <= |results|
    ensures Messages(dbs[0]) <= Messages(dbs[k])
  {
    if k == 0 {
    } else {
      TrailLosesNothing(t, dbs, copied, results, k - 1);
      assert RowAt(t, dbs, copied, results, k - 1);
      RowLosesNothing(dbs[k - 1], dbs[k], t[k - 1].0, t[k - 1].1, copied[k - 1]);
    }
  }

  // ----- What the totals tell -----

  /** No two rows have the same old name. */
  ghost predicate DistinctNames(t: Table) {
    forall i, j :: 0 <= i < j < |t| ==> t[i].0 != t[j].0
  }

  /** How many entries the old streams of the first `k` rows hold. */
  function OldEntries(db: Database, t: Table, k: nat): nat
    requires k <= |t|
  {
    if k == 0 then 0 else OldEntries(db, t, k - 1) + |EntriesOf(db, t[k - 1].0)|
  }

  /** How many of them hold any. */
  function HeldRows(db: Database, t: Table, k: nat): nat
    requires k <= |t|
  {
    if k == 0 then 0 else HeldRows(db, t, k - 1) + if EntriesOf(db, t[k - 1].0) != [] then 1 else 0
  }

  /** The row reports a failure only when it leaves something in its old stream. */
  ghost predicate Honest(t: Table, dbs: seq<Database>, results: seq<Result>, k: nat)
    requires k < |results| <= |t| && |dbs| == |results| + 1
  {
    results[k].Count? <==> EntriesOf(dbs[k + 1], t[k].0) == []
  }

  lemma {:induction false} SameHoldings(db: Database, db': Database, t: Table, k: nat)
    requires k <= |t| && forall i :: 0 <= i < k ==> EntriesOf(db', t[i].0) == EntriesOf(db, t[i].0)
    ensures OldEntries(db', t, k) == OldEntries(db, t, k) && HeldRows(db', t, k) == HeldRows(db, t, k)
  {
    if k == 0 {
    } else {
      SameHoldings(db, db', t, k - 1);
    }
  }

  lemma OtherNamesKept(db: Database, db': Database, from: string, to: string, copied: nat, name: string)
    requires RowOutcome(db, db', from, to, copied) && name != from && name != to
    ensures EntriesOf(db', name) == EntriesOf(db, name)
  {
  }

  lemma {:induction false} ComingRowsUntouched(
    t: Table, dbs: seq<Database>, copied: seq<nat>, results: seq<Result>, k: nat, j: nat)
    requires Flat(t) && DistinctNames(t) && Trail(t, dbs, copied, results) && k <= |results| && k <= j < |t|
    ensures EntriesOf(dbs[k], t[j].0) == EntriesOf(dbs[0], t[j].0)
  {
    if k == 0 {
    } else {
      ComingRowsUntouched(t, dbs, copied, results, k - 1, j);
      assert RowAt(t, dbs, copied, results, k - 1);
      OtherNamesKept(dbs[k - 1], dbs[k], t[k - 1].0, t[k - 1].1, copied[k - 1], t[j].0);
    }
  }

  /** What one row does to its own old stream. */
  lemma OwnStream(db: Database, db': Database, from: string, to: string, copied: nat, res: Result)
    requires RowResult(db, db', from, to, copied, res) && from != to
    ensures EntriesOf(db', from) in [EntriesOf(db, from), []]
    ensures res.Count? ==> EntriesOf(db', from) == [] && res.n == |EntriesOf(db, from)|
  {
    if copied > 0 { MoveIsCopyAndDelete(db, from, to); }
  }

  ghost predicate AllHonest(t: Table, dbs: seq<Database>, results: seq<Result>, k: nat)
    requires k <= |results| <= |t| && |dbs| == |results| + 1
  {
    forall i :: 0 <= i < k ==> Honest(t, dbs, results, i)
  }

  lemma RowTells(t: Table, dbs: seq<Database>, copied: seq<nat>, results: seq<Result>, k: nat)
    requires Flat(t) && DistinctNames(t) && Trail(t, dbs, copied, results) && k < |results|
    ensures var was, left := EntriesOf(dbs[0], t[k].0), EntriesOf(dbs[k + 1], t[k].0);
            && left in [was, []] && (results[k].Count? ==> left == [] && results[k].n == |was|)
            && OldEntries(dbs[k + 1], t, k + 1) == OldEntries(dbs[k], t, k) + |left|
            && HeldRows(dbs[k + 1], t, k + 1) == HeldRows(dbs[k], t, k) + if left != [] then 1 else 0
  {
    assert RowAt(t, dbs, copied, results, k);
    forall i | 0 <= i < k ensures EntriesOf(dbs[k + 1], t[i].0) == EntriesOf(dbs[k], t[i].0) {
      OtherNamesKept(dbs[k], dbs[k + 1], t[k].0, t[k].1, copied[k], t[i].0);
    }
    SameHoldings(dbs[k], dbs[k + 1], t, k);
    ComingRowsUntouched(t, dbs, copied, results, k, k);
    OwnStream(dbs[k], dbs[k + 1], t[k].0, t[k].1, copied[k], results[k]);
  }

  /**
   What the totals tell of the old streams, which had `had` entries and have `left` of them, in `held` streams.
   They never claim too much, and they are exact just when every row is honest about itself.
   */
  ghost predicate Tells(totals: Totals, held: nat, left: nat, had: nat, honest: bool) {
    && totals.moved + left <= had && held <= totals.failed
    && (held == totals.failed <==> honest)
    && (honest ==> totals.moved + left == had)
  }

  lemma TellsOneMore(
    totals: Totals, held: nat, left: nat, had: nat, honest: bool, res: Result, was: nat, rest: nat)
    requires Tells(totals, held, left, had, honest)
    requires rest in [was, 0] && (res.Count? ==> rest == 0 && res.n == was)
    ensures Tells(Tally(totals, res), held + (if rest > 0 then 1 else 0), left + rest, had + was,
                  honest && (res.Count? <==> rest == 0))
  {
  }

  /**
   Whatever fails, what the totals count as moved has left the old streams, and a row whose old stream still
   holds something counts as failed.  A failing command may also make a row count as failed that has nothing
   left; that apart, the totals are exact.
   */
  lemma {:induction false} TotalsTell(
    t: Table, dbs: seq<Database>, copied: seq<nat>, results: seq<Result>, k: nat)
    requires Flat(t) && DistinctNames(t) && Trail(t, dbs, copied, results) && k <= |results|
    ensures Tells(TotalsOf(results, k), HeldRows(dbs[k], t, k), OldEntries(dbs[k], t, k),
                  OldEntries(dbs[0], t, k), AllHonest(t, dbs, results, k))
  {
    if k == 0 {
    } else {
      var i := k - 1;
      TotalsTell(t, dbs, copied, results, i);
      RowTells(t, dbs, copied, results, i);
      TellsOneMore(TotalsOf(results, i), HeldRows(dbs[i], t, i), OldEntries(dbs[i], t, i), OldEntries(dbs[0], t, i),
                   AllHonest(t, dbs, results, i), results[i],
                   |EntriesOf(dbs[0], t[i].0)|, |EntriesOf(dbs[k], t[i].0)|);
      assert AllHonest(t, dbs, results, k) <==> AllHonest(t, dbs, results, i) && Honest(t, dbs, results, i);
    }
  }

  /** The totals after all rows, exact if every row did what it does without failing commands. */
  ghost predicate TellsRows(db: Database, db': Database, t: Table, totals: Totals, exact: bool) {
    var held, left, had := HeldRows(db', t, |t|), OldEntries(db', t, |t|), OldEntries(db, t, |t|);
    Tells(totals, held, left, had, true) || (!exact && Tells(totals, held, left, had, false))
  }

  lemma TrailTells(t: Table, dbs: seq<Database>, copied: seq<nat>, results: seq<Result>, exact: bool)
    requires Flat(t) && DistinctNames(t) && Trail(t, dbs, copied, results) && |results| == |t|
    requires exact ==> AllExact(t, dbs, results)
    ensures TellsRows(dbs[0], dbs[|t|], t, TotalsOf(results, |t|), exact)
  {
    TotalsTell(t, dbs, copied, results, |t|);
    if exact {
      forall k | 0 <= k < |t| ensures Honest(t, dbs, results, k) {
        assert ExactAt(t, dbs, results, k);
      }
    }
  }

  /** One row of the table, and the totals with it. */
  method MigrateRow(r: RedisDb, t: Table, k: nat, sofar: Totals, ghost db: Database, ghost healthy: bool)
    returns (totals: Totals, ghost copied: nat, ghost res: Result)
    requires r.Valid() && k < |t|
    requires healthy ==> r.Healthy() && (r.streams, sofar) == MigratedRows(db, t, k)
    modifies r
    ensures r.Valid() && RowResult(old(r.streams), r.streams, t[k].0, t[k].1, copied, res)
    ensures totals == Tally(sofar, res)
    ensures healthy ==> r.Healthy() && (r.streams, totals) == MigratedRows(db, t, k + 1)
    ensures healthy ==> (r.streams, res) == Migrated(old(r.streams), t[k].0, t[k].1)
  {
    var count;
    count, copied := MigrateStream(r, t[k].0, t[k].1);
    totals := Tally(sofar, count);
    res := count;
  }

  /**
   The whole table.  Without failing commands it does what `MigratedRows` says; with any failures
   no message is lost.  The totals tell what is left in the old streams, exactly if nothing failed.
   */
  method MigrateAll(r: RedisDb, t: Table) returns (totals: Totals)
    requires r.Valid()
    modifies r
    ensures r.Valid()
    ensures old(r.Healthy()) ==> r.Healthy() && (r.streams, totals) == MigratedRows(old(r.streams), t, |t|)
    ensures Messages(old(r.streams)) <= Messages(r.streams)
    ensures Flat(t) && DistinctNames(t) ==> TellsRows(old(r.streams), r.streams, t, totals, old(r.Healthy()))
  {
    ghost var db, healthy := r.streams, r.Healthy();
    ghost var dbs, copied, results := [db], [], [];
    totals := Totals(0, 0);
    for k := 0 to |t|
      invariant |copied| == k && r.Valid()
      invariant Trail(t, dbs, copied, results) && dbs[0] == db && dbs[k] == r.streams
      invariant totals == TotalsOf(results, k)
      invariant healthy ==> r.Healthy() && (r.streams, totals) == MigratedRows(db, t, k)
      invariant healthy ==> AllExact(t, dbs, results)
    {
      ghost var n, res;
      totals, n, res := MigrateRow(r, t, k, totals, db, healthy);
      TrailOneMore(t, dbs, copied, results, r.streams, n, res);
      if healthy { ExactOneMore(t, dbs, results, r.streams, res); }
      TotalsPrefix(results, res, k);
      dbs, copied, results := dbs + [r.streams], copied + [n], results + [res];
    }
    TrailLosesNothing(t, dbs, copied, results, |t|);
    if Flat(t) && DistinctNames(t) { TrailTells(t, dbs, copied, results, healthy); }
  }

  lemma {:induction false} TableConservesMessages(db: Database, t: Table, k: nat)
    requires Flat(t) && k <= |t|
    ensures Messages(MigratedRows(db, t, k).0) == Messages(db)
  {
    if k == 0 {
    } else {
      TableConservesMessages(db, t, k - 1);
      MoveConservesMessages(MigratedRows(db, t, k - 1).0, t[k - 1].0, t[k - 1].1);
    }
  }

  // ----- A second run -----

  /** The row has nothing to do: its stream is gone or empty, or its first id is not new to the target. */
  ghost predicate Settled(db: Database, from: string, to: string) {
    var es := EntriesOf(db, from);
    es == [] || es[0].id <= LastId(db, to)
  }

  /** The target's last id does not fall, whichever row is run, and neither does a settled row come undone. */
  lemma RowKeepsSettled(db: Database, from: string, to: string, from': string, to': string)
    requires ValidDatabase(db) && Settled(db, from, to)
    requires from != to' && from' != to && from' != to'
    ensures Settled(Migrated(db, from', to').0, from, to)
  {
    var es := EntriesOf(db, from');
    if es != [] && es[0].id > LastId(db, to') {
      assert es[0].id <= es[|es| - 1].id;
    }
  }

  lemma RowSettles(db: Database, from: string, to: string)
    requires ValidDatabase(db) && from != to
    ensures Settled(Migrated(db, from, to).0, from, to)
    ensures ValidDatabase(Migrated(db, from, to).0)
  {
    var es := EntriesOf(db, from);
    if es != [] && es[0].id > LastId(db, to) {
      CopiedIsValid(db, from, to, |es|);
      MoveIsCopyAndDelete(db, from, to);
    }
  }

  lemma {:induction false} RowsSettle(db: Database, t: Table, k: nat)
    requires ValidDatabase(db) && Flat(t) && k <= |t|
    ensures ValidDatabase(MigratedRows(db, t, k).0)
    ensures forall i :: 0 <= i < k ==> Settled(MigratedRows(db, t, k).0, t[i].0, t[i].1)
  {
    if k == 0 {
    } else {
      RowsSettle(db, t, k - 1);
      var db' := MigratedRows(db, t, k - 1).0;
      RowSettles(db', t[k - 1].0, t[k - 1].1);
      forall i | 0 <= i < k - 1
        ensures Settled(MigratedRows(db, t, k).0, t[i].0, t[i].1)
      {
        RowKeepsSettled(db', t[i].0, t[i].1, t[k - 1].0, t[k - 1].1);
      }
    }
  }

  lemma {:induction false} SettledRowsDoNothing(db: Database, t: Table, k: nat)
    requires k <= |t|
    requires forall i :: 0 <= i < |t| ==> Settled(db, t[i].0, t[i].1)
    ensures MigratedRows(db, t, k).0 == db && MigratedRows(db, t, k).1.moved == 0
  {
    if k == 0 {
    } else {
      SettledRowsDoNothing(db, t, k - 1);
    }
  }

  /** A second run moves nothing and changes nothing. */
  lemma SecondRunDoesNothing(db: Database, t: Table)
    requires ValidDatabase(db) && Flat(t)
    ensures var once := MigratedRows(db, t, |t|).0;
            && MigratedRows(once, t, |t|).0 == once
            && MigratedRows(once, t, |t|).1.moved == 0
  {
    RowsSettle(db, t, |t|);
    SettledRowsDoNothing(MigratedRows(db, t, |t|).0, t, |t|);
  }

  /** Where the script's own old names and targets differ, by position. */
  predicate OldName(s: string) {
    && |s| > 13
    && (|| s[12] in ['l', 'r', 'c', 'p']
        || (s[12] == 'o' && s[13] == 'u')
        || (s[12] == 'o' && s[13] == 'r' && |s| > 29 && s[29] == 'r'))
  }

  /** The script's own table is flat. */
  lemma MigrationsAreFlat()
    ensures Flat(MIGRATIONS)
  {
    assert forall i :: 0 <= i < |MIGRATIONS| ==> OldName(MIGRATIONS[i].0);
    assert forall j :: 0 <= j < |MIGRATIONS| ==> !OldName(MIGRATIONS[j].1);
  }

  // ----- A copy that was cut short -----

  /** Length, and where the lengths agree the first letters after the tenant, tell the old names apart. */
  function Mark(s: string): (nat, char, char)
    requires |s| > 13
  {
    (|s|, s[12], s[13])
  }

  lemma MigrationsHaveDistinctNames()
    ensures DistinctNames(MIGRATIONS)
  {
    var marks := [
      (23, 'l', 'e'), (25, 'l', 'e'), (26, 'o', 'u'), (28, 'o', 'u'), (40, 'o', 'r'), (42, 'o', 'r'),
      (21, 'r', 'a'), (23, 'r', 'a'), (22, 'c', 'o'), (24, 'c', 'o'), (25, 'p', 'e'), (27, 'p', 'e')];
    assert forall i :: 0 <= i < |MIGRATIONS| ==> |MIGRATIONS[i].0| > 13 && Mark(MIGRATIONS[i].0) == marks[i];
    assert forall i, j :: 0 <= i < j < |marks| ==> marks[i] != marks[j];
  }

  lemma OutcomeIsValid(db: Database, db': Database, from: string, to: string, copied: nat)
    requires ValidDatabase(db) && RowOutcome(db, db', from, to, copied)
    ensures ValidDatabase(db')
  {
    CopiedIsValid(db, from, to, copied);
    if db' != Copied(db, from, to, copied) { MoveIsCopyAndDelete(db, from, to); }
  }

  /** Whatever another row comes to, it leaves a settled row settled and its old stream alone. */
  lemma OtherRowKeepsSettled(
    db: Database, db': Database, from: string, to: string, from': string, to': string, copied: nat)
    requires ValidDatabase(db) && Settled(db, from, to) && RowOutcome(db, db', from', to', copied)
    requires from != to' && from' != to && from' != from
    ensures Settled(db', from, to) && EntriesOf(db', from) == EntriesOf(db, from)
  {
    if copied > 0 {
      var es := EntriesOf(db, from');
      assert es[0].id <= es[copied - 1].id;
      if db' != Copied(db, from', to', copied) { MoveIsCopyAndDelete(db, from', to'); }
    }
  }

  /** A settled row itself comes to nothing. */
  lemma SettledRowStands(db: Database, db': Database, from: string, to: string, copied: nat)
    requires Settled(db, from, to) && RowOutcome(db, db', from, to, copied)
    ensures db' == db
  {
  }

  /** Rows of the table, run one after the other in any order and number, whatever fails. */
  ghost predicate Attempts(t: Table, rows: seq<nat>, dbs: seq<Database>, copied: seq<nat>) {
    && |dbs| == |rows| + 1 && |copied| == |rows|
    && forall k :: 0 <= k < |rows| ==>
         rows[k] < |t| && RowOutcome(dbs[k], dbs[k + 1], t[rows[k]].0, t[rows[k]].1, copied[k])
  }

  lemma {:induction false} StaysSettled(
    t: Table, j: nat, rows: seq<nat>, dbs: seq<Database>, copied: seq<nat>, k: nat)
    requires Flat(t) && DistinctNames(t) && j < |t| && Attempts(t, rows, dbs, copied) && k <= |rows|
    requires ValidDatabase(dbs[0]) && Settled(dbs[0], t[j].0, t[j].1)
    ensures ValidDatabase(dbs[k]) && Settled(dbs[k], t[j].0, t[j].1)
    ensures EntriesOf(dbs[k], t[j].0) == EntriesOf(dbs[0], t[j].0)
  {
    if k == 0 {
    } else {
      StaysSettled(t, j, rows, dbs, copied, k - 1);
      var i := rows[k - 1];
      OutcomeIsValid(dbs[k - 1], dbs[k], t[i].0, t[i].1, copied[k - 1]);
      if i == j {
        SettledRowStands(dbs[k - 1], dbs[k], t[i].0, t[i].1, copied[k - 1]);
      } else {
        OtherRowKeepsSettled(dbs[k - 1], dbs[k], t[j].0, t[j].1, t[i].0, t[i].1, copied[k - 1]);
      }
    }
  }

  /**
   A copy that was cut short is never completed: once any entry is in the target, every later attempt
   refuses the row, after any number of runs of any rows, and its old stream still stands whole.
   */
  lemma CutShortForGood(
    db: Database, t: Table, j: nat, n: nat, rows: seq<nat>, dbs: seq<Database>, copied: seq<nat>)
    requires Flat(t) && DistinctNames(t) && j < |t| && Attempts(t, rows, dbs, copied)
    requires ValidDatabase(db) && 0 < n <= |EntriesOf(db, t[j].0)|
    requires EntriesOf(db, t[j].0)[0].id > LastId(db, t[j].1) && dbs[0] == Copied(db, t[j].0, t[j].1, n)
    ensures var end := dbs[|rows|];
            && EntriesOf(end, t[j].0) == EntriesOf(db, t[j].0)
            && Migrated(end, t[j].0, t[j].1) == (end, Refused)
  {
    var es := EntriesOf(db, t[j].0);
    assert es[0].id <= es[n - 1].id;
    CopiedIsValid(db, t[j].0, t[j].1, n);
    StaysSettled(t, j, rows, dbs, copied, |rows|);
  }

  /**
   A second try without failures, of a row that could be moved and whose first try left the old stream
   standing, moves it exactly when the first try copied nothing; otherwise it is refused.
   */
  lemma RetryMovesIffNothingCopied(db: Database, db': Database, from: string, to: string, copied: nat)
    requires ValidDatabase(db) && from != to && EntriesOf(db, from) != []
    requires EntriesOf(db, from)[0].id > LastId(db, to)
    requires RowOutcome(db, db', from, to, copied) && EntriesOf(db', from) != []
    ensures Migrated(db', from, to) == if copied == 0 then Migrated(db, from, to) else (db', Refused)
    ensures Migrated(db', from, to).1 == Count(|EntriesOf(db, from)|) <==> copied == 0
  {
    var es := EntriesOf(db, from);
    if copied > 0 {
      assert es[0].id <= es[copied - 1].id;
      MoveIsCopyAndDelete(db, from, to);
    }
  }
}
