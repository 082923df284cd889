/**
 * The write side of the ledger store: the `entries` table as a mutable map
 * from id to entry, with the AUTOINCREMENT counter that hands out ids, and
 * the `add`, `update` and `delete` operations. The lemmas after the class say
 * how each mutation moves what `fetch` lists and the balance `totals` reports.
 */
module LedgerStore {
  import opened LedgerTypes
  import opened LedgerQuery

  /** The largest rowid SQLite can assign (2^63 - 1). */
  const MaxRowId: int := 0x7FFF_FFFF_FFFF_FFFF

  /**
   * What `add` reports: the id of the new row, or that the table is full
   * because the largest possible rowid has already been issued.
   */
  datatype AddResult = Added(id: int) | Full

  class DB {
    /** The rows of the `entries` table, by id. */
    var entries: map<int, Entry>
    /** The largest id ever issued (the table's AUTOINCREMENT sequence value); 0 before the first insert. */
    var lastId: int

    /** Every stored id was issued by this store: it lies between 1 and the last id issued. */
    ghost predicate Valid()
      reads this
    {
      0 <= lastId <= MaxRowId
      && forall id :: id in entries ==> 1 <= id <= lastId
    }

    /** A freshly created, empty table. */
    constructor ()
      ensures Valid()
      ensures entries == map[] && lastId == 0
    {
      entries := map[];
      lastId := 0;
    }

    /**
     * `add(dt, tm, category, description, amount)`: stores one new entry under
     * an id larger than every id ever issued, so an id is never reused even
     * after its row was deleted. Every other row stays as it was.
     */
    method Add(dt: Date, tm: Option<string>, category: string, description: Option<string>, amount: real)
      returns (r: AddResult)
      requires Valid()
      modifies this
      ensures Valid()
      ensures r.Full? <==> old(lastId) == MaxRowId
      ensures r.Added? ==> r.id == old(lastId) + 1 && lastId == r.id
      ensures r.Added? ==> r.id !in old(entries) && forall k :: k in old(entries) ==> k < r.id
      ensures r.Added? ==> entries == old(entries)[r.id := Entry(dt, tm, category, description, amount)]
      ensures r.Full? ==> entries == old(entries) && lastId == old(lastId)
    {
      if lastId == MaxRowId {
        return Full;
      }
      var id := lastId + 1;
      entries := entries[id := Entry(dt, tm, category, description, amount)];
      lastId := id;
      r := Added(id);
    }

    /**
     * `update(entry_id, dt, tm, category, description, amount)`: replaces every
     * field but the id of the row with that id; an unknown id changes nothing.
     */
    method Update(id: int, dt: Date, tm: Option<string>, category: string,
                  description: Option<string>, amount: real)
      requires Valid()
      modifies this
      ensures Valid()
      ensures id in old(entries) ==> entries == old(entries)[id := Entry(dt, tm, category, description, amount)]
      ensures id !in old(entries) ==> entries == old(entries)
      ensures entries.Keys == old(entries).Keys && lastId == old(lastId)
    {
      if id in entries {
        entries := entries[id := Entry(dt, tm, category, description, amount)];
      }
    }

    /** `delete(entry_id)`: removes the row with that id, if there is one, and nothing else. */
    method Delete(id: int)
      requires Valid()
      modifies this
      ensures Valid()
      ensures entries == old(entries) - {id}
      ensures lastId == old(lastId)
    {
      entries := entries - {id};
    }
  }

  // ---------------------------------------------------------------------------
  // What the mutations do to the queries

  /** After inserting a new row, `fetch` lists the rows it listed before plus the new one if it passes the filter. */
  lemma FetchAfterInsert(m: map<int, Entry>, id: int, e: Entry, f: Filter)
    requires id !in m
    ensures forall r :: r in Fetch(m[id := e], f) <==> r in Fetch(m, f) || (r == Row(id, e) && Matches(e, f))
  {
    forall r
      ensures r in Fetch(m[id := e], f) <==> r in Fetch(m, f) || (r == Row(id, e) && Matches(e, f))
    {
      if r.id != id {
        assert r.id in m[id := e] <==> r.id in m;
      }
    }
  }

  /** After removing a row, `fetch` lists what it listed before except that row. */
  lemma FetchAfterRemove(m: map<int, Entry>, id: int, f: Filter)
    ensures forall r :: r in Fetch(m - {id}, f) <==> r in Fetch(m, f) && r.id != id
  {
    forall r
      ensures r in Fetch(m - {id}, f) <==> r in Fetch(m, f) && r.id != id
    {
      assert r.id in m - {id} <==> r.id in m && r.id != id;
    }
  }

  /** The contribution of an entry to the balance under filter `f`. */
  function Share(e: Entry, f: Filter): real
  {
    if Matches(e, f) then e.amount else 0.0
  }

  /** Inserting a new row moves every balance by that row's amount, if it passes the filter. */
  lemma BalanceAfterInsert(m: map<int, Entry>, id: int, e: Entry, f: Filter)
    requires id !in m
    ensures Totals(m[id := e], f).balance == Totals(m, f).balance + Share(e, f)
  {
    var m' := m[id := e];
    var ks := MatchingIds(m, f);
    assert forall k :: k in ks ==> m[k] == m'[k];
    ListingAgree(m, m', ks);
    if Matches(e, f) {
      assert MatchingIds(m', f) == ks + {id};
      ListingSumInsert(m', ks, id);
    } else {
      assert MatchingIds(m', f) == ks;
    }
  }

  /** Removing a row moves every balance back by that row's amount, if it passed the filter. */
  lemma BalanceAfterRemove(m: map<int, Entry>, id: int, f: Filter)
    requires id in m
    ensures Totals(m - {id}, f).balance == Totals(m, f).balance - Share(m[id], f)
  {
    var rest := m - {id};
    assert rest[id := m[id]] == m;
    BalanceAfterInsert(rest, id, m[id], f);
  }

  /** Replacing a row's fields trades its old contribution to every balance for the new one. */
  lemma BalanceAfterReplace(m: map<int, Entry>, id: int, e: Entry, f: Filter)
    requires id in m
    ensures Totals(m[id := e], f).balance == Totals(m, f).balance - Share(m[id], f) + Share(e, f)
  {
    var rest := m - {id};
    assert rest[id := e] == m[id := e];
    BalanceAfterRemove(m, id, f);
    BalanceAfterInsert(rest, id, e, f);
  }
}
