/**
 * The `weather_data` table of the SQLite file: created on first use by
 * `CREATE TABLE IF NOT EXISTS`, then only ever appended to by `INSERT`.
 */
module Store {
  import opened Fetch

  class WeatherStore {
    /** Whether the `weather_data` table exists in the database file. */
    var initialized: bool
    /** The table's rows in insertion order. */
    var rows: seq<Row>

    /**
     * A table that does not exist holds no rows. Every constructor and
     * method keeps it; it is what lets a first fetch on a fresh file
     * promise a table of exactly one row.
     */
    ghost predicate Valid()
      reads this
    {
      !initialized ==> rows == []
    }

    /** A fresh database file: no table yet. */
    constructor ()
      ensures Valid() && !initialized && rows == []
    {
      initialized := false;
      rows := [];
    }

    /** A database file left by earlier runs, whose table holds `existing`. */
    constructor Reopen(existing: seq<Row>)
      ensures Valid() && initialized && rows == existing
    {
      initialized := true;
      rows := existing;
    }

    /** `CREATE TABLE IF NOT EXISTS weather_data (...)`: creates the table when absent, keeps its rows when present. */
    method EnsureSchema()
      requires Valid()
      modifies this
      ensures Valid() && initialized && rows == old(rows)
    {
      if !initialized {
        initialized := true;
      }
    }

    /**
     * `INSERT INTO weather_data ... VALUES (?, ?, ?, ?, ?)`: adds the row at
     * the end, never replacing or merging; fails (no such table) when the
     * table does not exist.
     */
    method Append(row: Row) returns (ok: bool)
      requires Valid()
      modifies this
      ensures Valid() && initialized == old(initialized)
      ensures ok == old(initialized)
      ensures ok ==> |rows| == |old(rows)| + 1 && rows[..|old(rows)|] == old(rows) && rows[|old(rows)|] == row
      ensures !ok ==> rows == old(rows)
    {
      ok := initialized;
      if ok {
        rows := rows + [row];
      }
    }
  }

  /** Creating the schema a second time changes nothing the first did not. */
  method EnsureSchemaTwice(store: WeatherStore)
    requires store.Valid()
    modifies store
    ensures store.Valid() && store.initialized && store.rows == old(store.rows)
  {
    store.EnsureSchema();
    ghost var once := store.rows;
    store.EnsureSchema();
    assert store.rows == once;
  }
}
