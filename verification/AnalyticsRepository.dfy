/** The insert-once event store. */
module AnalyticsRepository {
  import opened Wrappers
  import opened AnalyticsSchema

  datatype Status = Recorded | Duplicate | SuppressedNoConsent | SchemaRejected | IdentityConflict

  datatype WriteResult = WriteResult(status: Status, eventId: Option<string>, reason: Option<string>)

  /** An event that leaves the allow-list, or a storage failure other than a uniqueness conflict. */
  datatype WriteError = ShapeMismatch | StorageDown

  type Written = Result<WriteResult, WriteError>

  /** The rows by id, and their ids in order of insertion. */
  datatype Store = Store(rows: map<string, Event>, order: seq<string>) {
    ghost predicate Valid() {
      && (forall id :: id in rows <==> id in order)
      && (forall id :: id in rows ==> rows[id].id == id)
      && (forall i, j :: 0 <= i < j < |order| ==> order[i] != order[j])
    }
  }

  const EMPTY := Store(map[], [])

  ghost predicate SameRow(a: Store, b: Store, id: string) {
    id in a.rows ==> id in b.rows && b.rows[id] == a.rows[id]
  }

  /** Nothing removed, nothing changed, new rows behind the old ones. */
  ghost predicate Extends(a: Store, b: Store) {
    a.order <= b.order && forall id :: SameRow(a, b, id)
  }

  /** `insert_immutable` under `persist`; `up` says that the storage answers. */
  function Persisted(s: Store, e: Event, up: bool): (Store, Written) {
    if !up then (s, Err(StorageDown))
    else if e.id !in s.rows then
      (Store(s.rows[e.id := e], s.order + [e.id]), Ok(WriteResult(Recorded, Some(e.id), None)))
    else if s.rows[e.id].digest == e.digest then (s, Ok(WriteResult(Duplicate, Some(e.id), None)))
    else (s, Ok(WriteResult(IdentityConflict, Some(e.id), None)))
  }

  /** The status tells what happened to the store: recorded exactly when the id was new, and then as given. */
  lemma PersistOutcome(s: Store, e: Event, up: bool)
    requires s.Valid()
    ensures var (s', r) := Persisted(s, e, up);
            && s'.Valid() && Extends(s, s')
            && (r == Ok(WriteResult(Recorded, Some(e.id), None)) <==> up && e.id !in s.rows)
            && (r == Ok(WriteResult(Recorded, Some(e.id), None)) ==>
              e.id in s'.rows && s'.rows[e.id] == e && |s'.order| == |s.order| + 1)
            && (r != Ok(WriteResult(Recorded, Some(e.id), None)) ==> s' == s)
            && (r == Ok(WriteResult(Duplicate, Some(e.id), None)) <==>
              up && e.id in s.rows && s.rows[e.id].digest == e.digest)
            && (up ==> e.id in s'.rows)
  {
    var s' := Persisted(s, e, up).0;
    forall id
      ensures SameRow(s, s', id)
    {
    }
  }

  lemma ExtendsTransitive(a: Store, b: Store, c: Store)
    requires Extends(a, b) && Extends(b, c)
    ensures Extends(a, c)
  {
    forall id
      ensures SameRow(a, c, id)
    {
      assert SameRow(a, b, id) && SameRow(b, c, id);
    }
  }

  class FirstPartyProductAnalyticsRepository {
    var rows: map<string, Event>
    var inserted: seq<string>

    function State(): Store
      reads this
    {
      Store(rows, inserted)
    }

    constructor ()
      ensures State() == EMPTY
    {
      rows, inserted := map[], [];
    }

    method Persist(e: Event, up: bool) returns (r: Written)
      modifies this
      ensures (State(), r) == Persisted(old(State()), e, up)
    {
      if !up {
        return Err(StorageDown);
      }
      if e.id in rows {
        var existing := Get(e.id);
        if existing.Some? && existing.value.digest == e.digest {
          return Ok(WriteResult(Duplicate, Some(e.id), None));
        }
        return Ok(WriteResult(IdentityConflict, Some(e.id), None));
      }
      rows, inserted := rows[e.id := e], inserted + [e.id];
      return Ok(WriteResult(Recorded, Some(e.id), None));
    }

    method Get(id: string) returns (e: Option<Event>)
      ensures e == if id in rows then Some(rows[id]) else None
    {
      return if id in rows then Some(rows[id]) else None;
    }
  }
}
