/**
 * The event table behind `IRepository<ScheduleTaskEvent>`: rows, the identity
 * counter that numbers inserted rows, and the operations the log service uses
 * (insert, get by id, delete by predicate, truncate).
 */
module Data {
  import opened Wrappers
  import opened Domain
  import Linq

  /** The fault a failing insert reports. */
  const InsertFailure: Fault := StoreFailure("The row could not be inserted")

  /** No two rows share an identifier: `Id` is the table's identity key. */
  predicate UniqueIds(rows: seq<EventRecord>)
  {
    forall i, j :: 0 <= i < j < |rows| ==> rows[i].id != rows[j].id
  }

  /** The row with identifier `id`, as `GetById` finds it. */
  function FindById(rows: seq<EventRecord>, id: int): (r: Option<EventRecord>)
    ensures r.Some? ==> r.value in rows && r.value.id == id
    ensures r.None? <==> forall e :: e in rows ==> e.id != id
  {
    Linq.FirstWhere(rows, (e: EventRecord) => e.id == id)
  }

  /** In a table with unique ids, the row found is the only row with that id. */
  lemma FindByIdIsTheRow(rows: seq<EventRecord>, e: EventRecord)
    requires UniqueIds(rows)
    requires e in rows
    ensures FindById(rows, e.id) == Some(e)
  {
    var r := FindById(rows, e.id);
    var i :| 0 <= i < |rows| && rows[i] == e;
    var j :| 0 <= j < |rows| && rows[j] == r.value;
    assert rows[i].id == rows[j].id;
  }

  /** Dropping the first row keeps the ids unique. */
  lemma TailIdsUnique(rows: seq<EventRecord>)
    requires rows != [] && UniqueIds(rows)
    ensures UniqueIds(rows[1..])
  {
    var tail := rows[1..];
    forall i, j | 0 <= i < j < |tail| ensures tail[i].id != tail[j].id {
      assert tail[i] == rows[i + 1] && tail[j] == rows[j + 1];
    }
  }

  /** A row whose id no other row has can be put in front. */
  lemma ConsIdsUnique(h: EventRecord, rows: seq<EventRecord>)
    requires UniqueIds(rows)
    requires forall x :: x in rows ==> x.id != h.id
    ensures UniqueIds([h] + rows)
  {
    var r := [h] + rows;
    forall i, j | 0 <= i < j < |r| ensures r[i].id != r[j].id {
      assert r[j] == rows[j - 1];
      if i == 0 {
        assert rows[j - 1] in rows;
      } else {
        assert r[i] == rows[i - 1];
      }
    }
  }

  /** Deleting rows keeps the remaining ids unique. */
  lemma {:induction false} FilteredIdsStayUnique(rows: seq<EventRecord>, p: EventRecord -> bool)
    requires UniqueIds(rows)
    ensures UniqueIds(Linq.Where(rows, p))
  {
    if rows != [] {
      var tail := rows[1..];
      TailIdsUnique(rows);
      FilteredIdsStayUnique(tail, p);
      var w := Linq.Where(tail, p);
      if p(rows[0]) {
        Linq.WhereMembers(tail, p);
        forall x | x in w ensures x.id != rows[0].id {
          var k :| 0 <= k < |tail| && tail[k] == x;
          assert rows[k + 1] == x;
        }
        ConsIdsUnique(rows[0], w);
        assert Linq.Where(rows, p) == [rows[0]] + w;
      } else {
        assert Linq.Where(rows, p) == [] + w;
        assert [] + w == w;
      }
    }
  }

  class EventRepository {
    var rows: seq<EventRecord>
    /** The identity value the next inserted row receives. */
    var nextId: int

    /** Every stored row has an identity below the next one, and no two rows share one. */
    ghost predicate Valid()
      reads this
    {
      nextId >= 1 && (forall e :: e in rows ==> e.id < nextId) && UniqueIds(rows)
    }

    constructor ()
      ensures Valid() && rows == [] && nextId == 1
    {
      rows := [];
      nextId := 1;
    }

    /**
     * Inserts the event: assigns it the next identity and stores its fields.
     * `fails` stands for the store throwing, which leaves everything as it was.
     */
    method Insert(ev: ScheduleTaskEvent, fails: bool) returns (outcome: Outcome)
      requires Valid()
      modifies this, ev
      ensures Valid()
      ensures fails ==> outcome == Fail(InsertFailure) && rows == old(rows) && nextId == old(nextId) && ev.Record() == old(ev.Record())
      ensures !fails ==> outcome == Pass
      ensures !fails ==> ev.Record() == old(ev.Record()).(id := old(nextId))
      ensures !fails ==> rows == old(rows) + [ev.Record()] && nextId == old(nextId) + 1
      ensures !fails ==> forall e :: e in old(rows) ==> e.id != ev.id
    {
      if fails {
        return Fail(InsertFailure);
      }
      ev.id := nextId;
      assert forall i :: 0 <= i < |rows| ==> rows[i] in rows;
      rows := rows + [ev.Record()];
      nextId := nextId + 1;
      return Pass;
    }

    /** Deletes, in one statement, every row satisfying `p`; the rest stay. */
    method DeleteWhere(p: EventRecord -> bool)
      requires Valid()
      modifies this
      ensures Valid()
      ensures rows == Linq.Where(old(rows), e => !p(e)) && nextId == old(nextId)
    {
      Linq.WhereMembers(rows, e => !p(e));
      FilteredIdsStayUnique(rows, e => !p(e));
      rows := Linq.Where(rows, e => !p(e));
    }

    /** Removes every row; the identity counter is not reset. */
    method Truncate()
      requires Valid()
      modifies this
      ensures Valid()
      ensures rows == [] && nextId == old(nextId)
    {
      rows := [];
    }
  }
}
