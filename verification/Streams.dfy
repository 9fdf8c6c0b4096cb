/**
 Redis streams as data: a strictly id-sorted sequence of entries and the last id ever given out.
 An id stands for the pair milliseconds-sequence in its order; no entry has id 0.
 */
module Streams {

  /** How a command goes: as it should, failing before it takes effect, or failing after. */
  datatype Fate = Fine | FailsBefore | FailsAfter

  datatype Entry<F> = Entry(id: nat, fields: F)

  ghost predicate Sorted<F>(es: seq<Entry<F>>) {
    forall i, j :: 0 <= i < j < |es| ==> es[i].id < es[j].id
  }

  datatype Stream<F> = Stream(entries: seq<Entry<F>>, lastId: nat) {
    ghost predicate Valid() {
      && Sorted(entries)
      && forall i :: 0 <= i < |entries| ==> 0 < entries[i].id <= lastId
    }

    /** XADD with an explicit id: only above the last id. */
    predicate CanAdd(id: nat) { id > lastId }

    function Add(id: nat, fields: F): Stream<F>
      requires CanAdd(id)
    {
      Stream(entries + [Entry(id, fields)], id)
    }

    /** XDEL leaves the last id alone. */
    function Delete(id: nat): Stream<F> { Stream(Without(entries, id), lastId) }
  }

  /** The id the server gives an entry added at time `now`. */
  function NextId(lastId: nat, now: nat): nat { if now > lastId then now else lastId + 1 }

  function Without<F>(es: seq<Entry<F>>, id: nat): seq<Entry<F>> {
    if es == [] then []
    else (if es[0].id == id then [] else [es[0]]) + Without(es[1..], id)
  }

  /** The index of the first entry above the cursor, looking from index `i` on. */
  function FirstAbove<F>(es: seq<Entry<F>>, cursor: nat, i: nat): (r: nat)
    requires i <= |es|
    ensures i <= r <= |es|
    decreases |es| - i
  {
    if i == |es| || es[i].id > cursor then i else FirstAbove(es, cursor, i + 1)
  }

  /** XRANGE with an exclusive lower bound: the entries from the first one above the cursor on. */
  function EntriesAfter<F>(es: seq<Entry<F>>, cursor: nat): seq<Entry<F>> {
    es[FirstAbove(es, cursor, 0)..]
  }

  function Take<T>(xs: seq<T>, count: nat): seq<T> {
    if |xs| <= count then xs else xs[..count]
  }

  /** The cursor that has been moved past the first `i` entries. */
  function CursorAt<F>(es: seq<Entry<F>>, i: nat): nat
    requires i <= |es|
  {
    if i == 0 then 0 else es[i - 1].id
  }

  /** Reading after such a cursor continues exactly where it stands. */
  lemma CursorContinues<F>(es: seq<Entry<F>>, i: nat)
    requires Sorted(es) && i <= |es|
    requires forall j :: 0 <= j < |es| ==> es[j].id > 0
    ensures EntriesAfter(es, CursorAt(es, i)) == es[i..]
  {
    FirstAboveIs(es, CursorAt(es, i), 0, i);
  }

  lemma {:induction false} FirstAboveIs<F>(es: seq<Entry<F>>, cursor: nat, k: nat, i: nat)
    requires k <= i <= |es|
    requires forall j :: k <= j < i ==> es[j].id <= cursor
    requires i < |es| ==> es[i].id > cursor
    ensures FirstAbove(es, cursor, k) == i
    decreases i - k
  {
    if k == i {
    } else {
      FirstAboveIs(es, cursor, k + 1, i);
    }
  }

  /** Deleting an id removes the entry with that id and keeps the others, their order and their ids. */
  lemma {:induction false} WithoutExact<F>(es: seq<Entry<F>>, id: nat)
    ensures forall e :: e in Without(es, id) <==> e in es && e.id != id
    ensures Sorted(es) ==> Sorted(Without(es, id))
  {
    if es == [] {
    } else {
      var rest := Without(es[1..], id);
      WithoutExact(es[1..], id);
      assert Without(es, id) == (if es[0].id == id then [] else [es[0]]) + rest;
      forall e ensures e in Without(es, id) <==> e in es && e.id != id {
        assert e in es <==> e == es[0] || e in es[1..];
      }
      if Sorted(es) {
        assert Sorted(es[1..]) && Sorted(rest);
        assert forall e :: e in rest ==> e in es[1..];
        FirstIsLeast(es, rest);
      }
    }
  }

  lemma KeptIsOriginal<F>(es: seq<Entry<F>>, id: nat, e: Entry<F>)
    requires e in Without(es, id)
    ensures e in es && e.id != id
  {
    WithoutExact(es, id);
  }

  lemma FirstIsLeast<F>(es: seq<Entry<F>>, rest: seq<Entry<F>>)
    requires es != [] && Sorted(es) && Sorted(rest)
    requires forall e :: e in rest ==> e in es[1..]
    ensures Sorted([es[0]] + rest)
  {
    forall i | 0 <= i < |rest| ensures es[0].id < rest[i].id {
      var e := rest[i];
      assert e in rest;
      var j :| 0 <= j < |es[1..]| && es[1..][j] == e;
      assert es[1..][j] == es[j + 1];
    }
  }
}
