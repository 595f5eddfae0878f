/** One relational table under the repository contract the services rely on:
    rows by primary key, an identity column that hands out keys, upsert by key,
    lookup, deletion and exact-match filtering. */
module Tables {
  import opened Common

  /** `rows` maps each primary key to its row; `next` is the next key the identity
      column will hand out. */
  datatype Table<R> = Table(rows: map<int, R>, next: int)
  {
    /** Every stored key lies below the identity counter, so `next` is unused. */
    predicate Valid() {
      forall k :: k in rows ==> k < next
    }

    /** The key a save writes: the record's own id when it carries one (an
        overwrite), otherwise a freshly generated key that no row holds yet. */
    function KeyFor(id: Option<int>): (k: int)
      requires Valid()
      ensures id.Some? ==> k == id.value
      ensures id.None? ==> k !in rows
    {
      if id.Some? then id.value else next
    }

    /** Writes `r` under key `k`, replacing any row there, and moves the identity
        counter past `k` as an auto-increment column does. */
    function Put(k: int, r: R): (t: Table<R>)
      requires Valid()
      ensures t.Valid()
      ensures t.rows == rows[k := r]
    {
      Table(rows[k := r], if k < next then next else k + 1)
    }

    /** `findById`: present exactly when the key is stored. */
    function FindById(k: int): (r: Option<R>)
      ensures r.Some? <==> k in rows
      ensures r.Some? ==> r.value == rows[k]
    {
      if k in rows then Some(rows[k]) else None
    }

    /** `deleteById`: removes the row if there is one; an absent key is a no-op. */
    function DeleteById(k: int): (t: Table<R>)
      requires Valid()
      ensures t.Valid()
      ensures t.rows.Keys == rows.Keys - {k}
      ensures forall j :: j in t.rows ==> t.rows[j] == rows[j]
    {
      Table(rows - {k}, next)
    }

    /** A derived finder: exactly the rows satisfying `p`, under their own keys. */
    function Where(p: R -> bool): (m: map<int, R>)
      ensures forall k :: k in m <==> k in rows && p(rows[k])
      ensures forall k :: k in m ==> m[k] == rows[k]
    {
      map k | k in rows && p(rows[k]) :: rows[k]
    }
  }

  /** A table with no rows whose identity column starts at 1. */
  function EmptyTable<R>(): (t: Table<R>)
    ensures t.Valid() && t.rows == map[]
  {
    Table(map[], 1)
  }
}
