/**
 * The file cache of src/utils/dbService.ts: path normalisation and the rows `add`,
 * `update` and `getByPath` write and read. The SQLite table `files_cache` is a sequence
 * of rows in insertion order whose `relative_path` column is unique; the current time
 * is a parameter.
 */
module DbService {
  import opened Wrappers

  // ---------------------------------------------------------------------------
  // normalizedPath
  // ---------------------------------------------------------------------------

  /** `path.replace(/\\/g, separator)`: every backslash becomes `separator`. */
  function NormalizedPath(path: string, separator: string): (r: string)
    ensures '\\' !in path ==> r == path
  {
    if path == [] then []
    else (if path[0] == '\\' then separator else [path[0]]) + NormalizedPath(path[1..], separator)
  }

  /** The default separator. */
  const Slash := "/"

  /**
   * With the default separator every backslash becomes a slash and every other
   * character stays where it is; so the result has the same length and no backslash.
   */
  lemma {:induction false} NormalizedPathWithSlash(path: string)
    ensures |NormalizedPath(path, Slash)| == |path|
    ensures forall i :: 0 <= i < |path| ==>
      NormalizedPath(path, Slash)[i] == if path[i] == '\\' then '/' else path[i]
    ensures '\\' !in NormalizedPath(path, Slash)
  {
    if path != [] {
      NormalizedPathWithSlash(path[1..]);
      var r := NormalizedPath(path, Slash);
      assert forall i :: 1 <= i < |path| ==> r[i] == NormalizedPath(path[1..], Slash)[i - 1];
    }
  }

  /** Normalising twice is normalising once. */
  lemma NormalizedPathIdempotent(path: string)
    ensures NormalizedPath(NormalizedPath(path, Slash), Slash) == NormalizedPath(path, Slash)
  {
    NormalizedPathWithSlash(path);
  }

  // ---------------------------------------------------------------------------
  // Rows
  // ---------------------------------------------------------------------------

  /** The record `add` and `update` receive; `mtime` and `birthtime` may be absent. */
  datatype Record = Record(
    relative_path: string,
    tags: string,
    recognized_text: string,
    recognized_block: string,
    mtime: Option<string>,
    birthtime: Option<string>)

  /** A row of `files_cache`. */
  datatype Row = Row(
    relative_path: string,
    tags: string,
    recognized_text: string,
    recognized_block: string,
    recognized_update: string,
    atime: string,
    mtime: string,
    birthtime: string)

  /** `value || currentTime`: an absent or empty value falls back to the current time. */
  function OrNow(value: Option<string>, now: string): (r: string)
    ensures value.Some? && value.value != "" ==> r == value.value
    ensures value.None? || value.value == "" ==> r == now
  {
    if value.Some? && value.value != "" then value.value else now
  }

  /** The values `add` inserts and `update` sets, keyed by the normalised path. */
  function RowOf(record: Record, now: string): (row: Row)
    ensures row.relative_path == NormalizedPath(record.relative_path, Slash)
    ensures row.recognized_update == now && row.atime == now
    ensures row.mtime == OrNow(record.mtime, now) && row.birthtime == OrNow(record.birthtime, now)
    ensures row.tags == record.tags && row.recognized_text == record.recognized_text
    ensures row.recognized_block == record.recognized_block
  {
    Row(NormalizedPath(record.relative_path, Slash), record.tags, record.recognized_text,
        record.recognized_block, now, now, OrNow(record.mtime, now), OrNow(record.birthtime, now))
  }

  // ---------------------------------------------------------------------------
  // The table
  // ---------------------------------------------------------------------------

  /** The rows with path `path`, in order: `SELECT * ... WHERE relative_path = ?`. */
  function Select(table: seq<Row>, path: string): (r: seq<Row>)
    ensures forall i :: 0 <= i < |r| ==> r[i].relative_path == path
    ensures |r| <= |table|
  {
    if table == [] then []
    else (if table[0].relative_path == path then [table[0]] else []) + Select(table[1..], path)
  }

  /** No two rows share a path (the `UNIQUE` constraint). */
  predicate UniquePaths(table: seq<Row>) {
    forall i, j :: 0 <= i < j < |table| ==> table[i].relative_path != table[j].relative_path
  }

  /** `add`: inserts the row, or fails when a row with that path exists. */
  function Add(table: seq<Row>, record: Record, now: string): Result<seq<Row>, string> {
    var row := RowOf(record, now);
    if Select(table, row.relative_path) != [] then Err("UNIQUE constraint failed")
    else Ok(table + [row])
  }

  /** `update`: replaces the values of the row with the record's path, if there is one. */
  function Update(table: seq<Row>, record: Record, now: string): (r: seq<Row>)
    ensures |r| == |table|
  {
    var row := RowOf(record, now);
    seq(|table|, i requires 0 <= i < |table| =>
      if table[i].relative_path == row.relative_path then row else table[i])
  }

  /** `getByPath`: the first row with the normalised path, or null. */
  function GetByPath(table: seq<Row>, relativePath: string): Option<Row> {
    var rows := Select(table, NormalizedPath(relativePath, Slash));
    if |rows| > 0 then Some(rows[0]) else None
  }

  /** A path has a selected row exactly when some row has that path. */
  lemma {:induction false} SelectFinds(table: seq<Row>, path: string)
    ensures Select(table, path) == [] <==> forall i :: 0 <= i < |table| ==> table[i].relative_path != path
    ensures Select(table, path) != [] ==> exists i :: 0 <= i < |table| && table[i] == Select(table, path)[0]
  {
    if table != [] {
      var rest := table[1..];
      SelectFinds(rest, path);
      if table[0].relative_path == path {
        assert Select(table, path)[0] == table[0];
      } else {
        assert Select(table, path) == Select(rest, path);
        if Select(rest, path) != [] {
          var i :| 0 <= i < |rest| && rest[i] == Select(rest, path)[0];
          assert table[i + 1] == rest[i];
        } else {
          forall i | 0 <= i < |table|
            ensures table[i].relative_path != path
          {
            if i > 0 {
              assert table[i] == rest[i - 1];
            }
          }
        }
      }
    }
  }

  lemma {:induction false} SelectAppend(table: seq<Row>, row: Row, path: string)
    ensures Select(table + [row], path) == Select(table, path) + (if row.relative_path == path then [row] else [])
  {
    if table == [] {
      assert [row][1..] == [];
    } else {
      assert (table + [row])[1..] == table[1..] + [row];
      SelectAppend(table[1..], row, path);
    }
  }

  /**
   * `add` keeps paths unique; after it, `getByPath` with the record's path, written with
   * either separator, finds the new row; it fails exactly when the normalised path is
   * already there.
   */
  lemma AddThenGet(table: seq<Row>, record: Record, now: string)
    requires UniquePaths(table)
    ensures Add(table, record, now).Err? <==>
      exists i :: 0 <= i < |table| && table[i].relative_path == NormalizedPath(record.relative_path, Slash)
    ensures Add(table, record, now).Ok? ==>
      UniquePaths(Add(table, record, now).value)
      && GetByPath(Add(table, record, now).value, record.relative_path) == Some(RowOf(record, now))
  {
    var row := RowOf(record, now);
    var p := row.relative_path;
    SelectFinds(table, p);
    SelectAppend(table, row, p);
    NormalizedPathIdempotent(record.relative_path);
  }

  /**
   * `update` keeps paths unique and rewrites the row with the record's path and no
   * other; then `getByPath` finds the new values. A path with no row changes nothing.
   */
  lemma UpdateThenGet(table: seq<Row>, record: Record, now: string)
    requires UniquePaths(table)
    ensures UniquePaths(Update(table, record, now))
    ensures forall i :: 0 <= i < |table| && table[i].relative_path != NormalizedPath(record.relative_path, Slash) ==>
      Update(table, record, now)[i] == table[i]
    ensures GetByPath(table, record.relative_path).Some? ==>
      GetByPath(Update(table, record, now), record.relative_path) == Some(RowOf(record, now))
    ensures GetByPath(table, record.relative_path).None? ==> Update(table, record, now) == table
  {
    UpdateKeepsOthers(table, record, now);
    NormalizedPathIdempotent(record.relative_path);
    var p := NormalizedPath(record.relative_path, Slash);
    SelectFinds(table, p);
    if GetByPath(table, record.relative_path).Some? {
      UpdateFinds(table, record, now);
    } else {
      assert Update(table, record, now) == table;
    }
  }

  /** `update` changes only rows with the record's path, and so keeps paths unique. */
  lemma UpdateKeepsOthers(table: seq<Row>, record: Record, now: string)
    requires UniquePaths(table)
    ensures UniquePaths(Update(table, record, now))
    ensures forall i :: 0 <= i < |table| && table[i].relative_path != NormalizedPath(record.relative_path, Slash) ==>
      Update(table, record, now)[i] == table[i]
  {
    var u := Update(table, record, now);
    assert forall i :: 0 <= i < |u| ==> u[i].relative_path == table[i].relative_path;
  }

  /** After `update` of a path that has a row, the first row with that path holds the new values. */
  lemma UpdateFinds(table: seq<Row>, record: Record, now: string)
    requires exists j :: 0 <= j < |table| && table[j].relative_path == NormalizedPath(record.relative_path, Slash)
    ensures GetByPath(Update(table, record, now), record.relative_path) == Some(RowOf(record, now))
  {
    var p := NormalizedPath(record.relative_path, Slash);
    var u := Update(table, record, now);
    NormalizedPathIdempotent(record.relative_path);
    var j :| 0 <= j < |table| && table[j].relative_path == p;
    assert u[j].relative_path == p;
    SelectFinds(u, p);
    var k :| 0 <= k < |u| && u[k] == Select(u, p)[0];
    assert u[k].relative_path == p;
  }
}
