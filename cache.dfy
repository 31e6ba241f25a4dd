/** The persisted staleness cache of the copy pipeline: the sqlite table
    `files(path PRIMARY KEY, mtime)` with its two operations, `hasChanged`
    and `updateMtime`. The file system's current modification times are a
    map passed in; a path missing from it is a file that `fs.statSync`
    cannot find. */
module Cache {
  import opened Wrappers
  import opened Paths

  /** The rows of the `files` table, keyed by path. */
  type Table = map<Path, int>

  /** Current modification time of every existing file. */
  type Disk = map<Path, int>

  /** What `fs.statSync` throws for a missing file. */
  datatype StatError = NoSuchFile(path: Path)

  /** The row for `path` exists and holds the file's current mtime. */
  predicate Synced(table: Table, disk: Disk, path: Path)
  {
    path in disk && path in table && table[path] == disk[path]
  }

  /** `hasChanged(path)`: fails when the file is missing, is true when no
      row exists or the stored mtime differs, and false only on an exact
      match. */
  function Changed(table: Table, disk: Disk, path: Path): (r: Result<bool, StatError>)
    ensures r.Err? <==> path !in disk
    ensures r.Err? ==> r.error == NoSuchFile(path)
    ensures r == Ok(false) <==> Synced(table, disk, path)
  {
    if path !in disk then Err(NoSuchFile(path))
    else Ok(path !in table || table[path] != disk[path])
  }

  /** The table after `updateMtime(path)`: `INSERT OR REPLACE` of the one
      row keyed by `path`. */
  function Upserted(table: Table, disk: Disk, path: Path): (r: Result<Table, StatError>)
    ensures r.Ok? <==> path in disk
    ensures r.Err? ==> r.error == NoSuchFile(path)
    ensures r.Ok? ==> r.value.Keys == table.Keys + {path} && r.value[path] == disk[path]
    ensures r.Ok? ==> forall q :: q in table && q != path ==> r.value[q] == table[q]
  {
    if path !in disk then Err(NoSuchFile(path)) else Ok(table[path := disk[path]])
  }

  /** Right after `updateMtime(p)`, with the file untouched, `hasChanged(p)`
      is false; no other path's answer changes except from "changed" to
      "unchanged" for `p` itself. */
  lemma UpdateThenUnchanged(table: Table, disk: Disk, path: Path, other: Path)
    requires path in disk && other != path
    ensures Changed(Upserted(table, disk, path).value, disk, path) == Ok(false)
    ensures Changed(Upserted(table, disk, path).value, disk, other) == Changed(table, disk, other)
  {
  }

  /** The process-wide table handle of `cache.js`. */
  class StalenessCache {
    var rows: Table

    /** Opening the database: the rows persisted by earlier runs. */
    constructor (persisted: Table)
      ensures rows == persisted
    {
      rows := persisted;
    }

    /** `hasChanged(filePath)`; it only reads the table. */
    method HasChanged(disk: Disk, path: Path) returns (r: Result<bool, StatError>)
      ensures r == Changed(rows, disk, path)
    {
      if path !in disk {
        return Err(NoSuchFile(path));
      }
      var mtime := disk[path];
      r := Ok(path !in rows || rows[path] != mtime);
    }

    /** `updateMtime(filePath)`: upserts the row with the current mtime, or
        fails, leaving the table as it was, when the file is missing. */
    method UpdateMtime(disk: Disk, path: Path) returns (r: Result<(), StatError>)
      modifies this
      ensures r.Ok? <==> path in disk
      ensures r.Ok? ==> Upserted(old(rows), disk, path) == Ok(rows)
      ensures r.Err? ==> r.error == NoSuchFile(path) && rows == old(rows)
    {
      if path !in disk {
        return Err(NoSuchFile(path));
      }
      rows := rows[path := disk[path]];
      r := Ok(());
    }
  }
}
