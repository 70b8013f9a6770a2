/** core/settings_store.py: overrides live in a table and are read through a
    cache that is trusted for thirty seconds. This module is one process alone
    with its table; SettingsRaces lets threads and other processes in. */
module SettingsStore {
  import opened Json
  import opened Text

  const CACHE_TTL_SECONDS := 30

  /** The JSON text of a row, by what it decodes to. */
  datatype Cell = Holds(value: Json) | Undecodable

  type Table = map<string, Cell>

  type Overrides = map<string, Json>

  /** What a load of the table yields: allowed keys, decodable values. */
  ghost function View(table: Table, allowed: set<string>): Overrides {
    map k | k in table && k in allowed && table[k].Holds? :: table[k].value
  }

  datatype Answer = Stored | NotOverridable

  class SettingsOverlay {
    const allowed: set<string>
    var table: Table            // runtime_setting
    var cache: Overrides
    var loadedAt: Option<int>
    ghost var failed: bool      // the last load could not read the table

    /** The cache, while anybody may look at it, is what the table holds, or
        nothing at all after a failed load. */
    ghost predicate Valid()
      reads this
    {
      loadedAt.Some? ==> cache == if failed then map[] else View(table, allowed)
    }

    constructor (table: Table, allowed: set<string>)
      ensures Valid() && this.table == table && this.allowed == allowed && loadedAt == None
    {
      this.table, this.allowed := table, allowed;
      cache, loadedAt, failed := map[], None, false;
    }

    predicate Fresh(now: int)
      reads this
    {
      loadedAt.Some? && now - loadedAt.value < CACHE_TTL_SECONDS
    }

    /** `rows` is the order in which the database lists the keys. */
    method Load(readable: bool, rows: seq<string>) returns (values: Overrides)
      requires forall k :: k in rows <==> k in table
      ensures values == if readable then View(table, allowed) else map[]
    {
      values := map[];
      if !readable {
        return;
      }
      for i := 0 to |rows|
        invariant values == map k | k in rows[..i] && k in allowed && table[k].Holds? :: table[k].value
      {
        var key := rows[i];
        if key !in allowed {
          continue;
        }
        if table[key].Holds? {
          values := values[key := table[key].value];
        }
      }
      assert rows[..|rows|] == rows;
    }

    /** `now` is the clock at the first look, `then_` after a load. */
    method Current(now: int, then_: int, readable: bool, rows: seq<string>) returns (values: Overrides)
      requires Valid() && forall k :: k in rows <==> k in table
      modifies this`cache, this`loadedAt, this`failed
      ensures Valid() && values == cache
      // A cache younger than thirty seconds is served without a look at the table.
      ensures if old(loadedAt.Some? && now - loadedAt.value < 30)
              then loadedAt == old(loadedAt) && failed == old(failed) && values == old(cache)
              else loadedAt == Some(then_) && failed == !readable
      ensures values == if failed then map[] else View(table, allowed)
      ensures !failed ==> forall k :: k in values <==> k in allowed && k in table && table[k].Holds?
      ensures forall k :: k in values ==> k in table && table[k] == Holds(values[k])
    {
      if Fresh(now) {
        return cache;
      }
      var loaded := Load(readable, rows);
      cache, loadedAt, failed := loaded, Some(then_), !readable;
      return loaded;
    }

    method Invalidate()
      modifies this`loadedAt
      ensures loadedAt == None && Valid()
    {
      loadedAt := None;
    }

    method Set(key: string, value: Json, now: int, then_: int, readable: bool,
               rows: seq<string>) returns (answer: Answer)
      requires Valid() && forall k :: k in rows <==> k in table
      modifies this
      ensures Valid()
      ensures answer == if key in allowed then Stored else NotOverridable
      ensures key in allowed ==> table == old(table)[key := Holds(value)] && loadedAt == None
      ensures key !in allowed ==> table == old(table) && loadedAt == old(loadedAt) && cache == old(cache)
    {
      if key !in allowed {
        return NotOverridable;
      }
      var values := Current(now, then_, readable, rows);
      table := table[key := Holds(value)];
      Invalidate();
      return Stored;
    }

    /** False when no override is in force, as far as the cache knows. */
    method Clear(key: string, now: int, then_: int, readable: bool, rows: seq<string>) returns (cleared: bool)
      requires Valid() && forall k :: k in rows <==> k in table
      modifies this
      ensures Valid()
      ensures cleared ==> table == old(table) - {key} && loadedAt == None
      ensures !cleared ==> table == old(table)
      ensures old(loadedAt.Some? && now - loadedAt.value < 30) ==> (cleared <==> key in old(cache))
      ensures !old(loadedAt.Some? && now - loadedAt.value < 30) ==>
                (cleared <==> readable && key in allowed && key in old(table) && old(table)[key].Holds?)
    {
      var values := Current(now, then_, readable, rows);
      if key !in values {
        return false;
      }
      table := table - {key};
      Invalidate();
      return true;
    }

    /** Alone with its table, a process reads what it wrote. */
    method ReadAfterWrite(key: string, value: Json, now: int, then_: int, readable: bool, rows: seq<string>,
                          now': int, then': int, rows': seq<string>) returns (values: Overrides)
      requires Valid() && key in allowed && forall k :: k in rows <==> k in table
      requires forall k :: k in rows' <==> k in table || k == key
      modifies this
      ensures Valid() && values == View(old(table), allowed)[key := value]
    {
      var answer := Set(key, value, now, then_, readable, rows);
      values := Current(now', then', true, rows');
    }
  }
}
