/** A document collection as the controllers see it: records addressed by
    id. The database hands out fresh ids and never reuses one, so a table is
    modelled as a sequence of slots indexed by id, where a deleted record
    leaves an empty slot behind. `Has` and `Get` give the map-from-ids view. */
module Store {
  import opened Common

  type Id = nat

  /** One record together with its id, as returned by a `find` query. */
  datatype Row<+T> = Row(id: Id, value: T)

  datatype Table<+T> = Table(slots: seq<Option<T>>)
  {
    /** A record with this id is stored. */
    predicate Has(id: Id) {
      id < |slots| && slots[id].Some?
    }

    /** `findById`: the record with this id, if any. */
    function Get(id: Id): (r: Option<T>)
      ensures r.Some? <==> Has(id)
    {
      if id < |slots| then slots[id] else None
    }

    /** The id the next insertion receives. */
    function NextId(): (id: Id)
      ensures !Has(id)
    {
      |slots|
    }

    /** Insert a record under a fresh id; every stored record stays as it was. */
    function Insert(v: T): (t: Table<T>)
      ensures t.Get(NextId()) == Some(v)
      ensures forall id: Id :: id != NextId() ==> t.Get(id) == Get(id)
      ensures t.NextId() == NextId() + 1
    {
      Table(slots + [Some(v)])
    }

    /** Overwrite the record stored under `id`; no other record changes. */
    function Put(id: Id, v: T): (t: Table<T>)
      requires Has(id)
      ensures t.Get(id) == Some(v)
      ensures forall other: Id :: other != id ==> t.Get(other) == Get(other)
      ensures t.NextId() == NextId()
    {
      Table(slots[id := Some(v)])
    }

    /** `findByIdAndDelete`: remove the record; its id is not reused. */
    function Delete(id: Id): (t: Table<T>)
      ensures !t.Has(id)
      ensures forall other: Id :: other != id ==> t.Get(other) == Get(other)
      ensures t.NextId() == NextId()
    {
      if id < |slots| then Table(slots[id := None]) else this
    }

    /** `find({})`: every stored record with its id, in id order. */
    function Rows(): (rows: seq<Row<T>>)
      ensures Enumerates(rows)
    {
      RowsFrom(0)
    }

    /** The stored records whose ids are at least `i`, in id order. */
    function RowsFrom(i: nat): (rows: seq<Row<T>>)
      ensures forall k :: 0 <= k < |rows| ==> i <= rows[k].id && Get(rows[k].id) == Some(rows[k].value)
      ensures forall k, l :: 0 <= k < l < |rows| ==> rows[k].id < rows[l].id
      ensures forall id: Id :: i <= id && Has(id) ==> Row(id, slots[id].value) in rows
      decreases |slots| - i
    {
      if i >= |slots| then []
      else
        var rest := RowsFrom(i + 1);
        match slots[i]
        case Some(v) => [Row(i, v)] + rest
        case None => rest
    }

    /** `rows` lists exactly the stored records, each once, in id order. */
    ghost predicate Enumerates(rows: seq<Row<T>>) {
      && (forall k :: 0 <= k < |rows| ==> Get(rows[k].id) == Some(rows[k].value))
      && (forall k, l :: 0 <= k < l < |rows| ==> rows[k].id < rows[l].id)
      && (forall id: Id :: Has(id) ==> Row(id, slots[id].value) in rows)
    }
  }

  /** `findOne(filter)`: the lowest id whose record satisfies `p`. */
  function FindFirst<T>(t: Table<T>, p: T -> bool): (r: Option<Id>)
    ensures r.Some? ==> t.Has(r.value) && p(t.slots[r.value].value)
    ensures r.Some? ==> forall id: Id :: id < r.value && t.Has(id) ==> !p(t.slots[id].value)
    ensures r.None? ==> forall id: Id :: t.Has(id) ==> !p(t.slots[id].value)
  {
    FindFrom(t, p, 0)
  }

  function FindFrom<T>(t: Table<T>, p: T -> bool, i: nat): (r: Option<Id>)
    ensures r.Some? ==> i <= r.value && t.Has(r.value) && p(t.slots[r.value].value)
    ensures r.Some? ==> forall id: Id :: i <= id < r.value && t.Has(id) ==> !p(t.slots[id].value)
    ensures r.None? ==> forall id: Id :: i <= id && t.Has(id) ==> !p(t.slots[id].value)
    decreases |t.slots| - i
  {
    if i >= |t.slots| then None
    else if t.slots[i].Some? && p(t.slots[i].value) then Some(i)
    else FindFrom(t, p, i + 1)
  }

  /** A lookup is unaffected by overwriting a record with one the filter
      judges the same way. */
  lemma FindFirstAfterPut<T>(t: Table<T>, p: T -> bool, id: Id, v: T)
    requires t.Has(id) && p(v) == p(t.slots[id].value)
    ensures FindFirst(t.Put(id, v), p) == FindFirst(t, p)
  {
    var t' := t.Put(id, v);
    assert forall j: Id :: t'.Has(j) == t.Has(j);
    assert forall j: Id :: t.Has(j) ==> (p(t'.slots[j].value) == p(t.slots[j].value));
  }

  /** Inserting a record can only add a match after all existing ones. */
  lemma FindFirstAfterInsert<T>(t: Table<T>, p: T -> bool, v: T)
    ensures FindFirst(t, p).Some? ==> FindFirst(t.Insert(v), p) == FindFirst(t, p)
    ensures FindFirst(t, p).None? && p(v) ==> FindFirst(t.Insert(v), p) == Some(t.NextId())
    ensures FindFirst(t, p).None? && !p(v) ==> FindFirst(t.Insert(v), p).None?
  {
    var t' := t.Insert(v);
    assert forall j: Id :: j < t.NextId() ==> t'.Has(j) == t.Has(j);
    assert forall j: Id :: t.Has(j) ==> t'.slots[j] == t.slots[j];
  }

  /** `find(filter)`: the rows that satisfy `p`, in their original order. */
  function Where<T>(rows: seq<T>, p: T -> bool): (r: seq<T>)
    ensures |r| <= |rows|
    ensures forall k :: 0 <= k < |r| ==> p(r[k]) && r[k] in rows
    ensures forall x :: x in rows && p(x) ==> x in r
    ensures multiset(r) <= multiset(rows)
    decreases |rows|
  {
    if |rows| == 0 then []
    else
      assert rows == [rows[0]] + rows[1..];
      if p(rows[0]) then [rows[0]] + Where(rows[1..], p) else Where(rows[1..], p)
  }
}
