/**
 * The parquet helpers of the lite storage layer
 * (`lite/src/storage/parquet_util.py`): the table paths, the read that falls
 * back to the `.bak` copy, and the repair that restores a backup over a
 * missing or unusable table. Frames are the values `T` stored on a
 * `Files.Disk<T>`; `columns` gives the column names of a frame.
 */
module Parquet {
  import opened Wrappers
  import opened Files

  /** `os.path.join(DATA_DIR, "meta")` with the default `DATA_DIR`. */
  const MetaDir: string := "./lite/data/meta"

  /** `table_path(name)`: `META_DIR/name.parquet`. */
  function TablePath(name: string): (p: string)
    ensures |p| == |MetaDir| + 1 + |name| + 8
    ensures p[..|MetaDir| + 1] == MetaDir + "/" && p[|MetaDir| + 1..|p| - 8] == name
    ensures p[|p| - 8..] == ".parquet"
  {
    MetaDir + "/" + name + ".parquet"
  }

  /** Different table names give different paths. */
  lemma TablePathInjective(a: string, b: string)
    requires TablePath(a) == TablePath(b)
    ensures a == b
  {
  }

  /**
   * `read_parquet_safe(path)`: a missing file reads as the empty frame, a
   * readable one as its frame; an unreadable one falls back to a readable
   * `.bak`, and otherwise the read fails.
   */
  function ReadSafe<T>(files: map<string, Stored<T>>, path: string, empty: T): (r: Result<T, string>)
    ensures path !in files ==> r == Ok(empty)
    ensures path in files && files[path].Good? ==> r == Ok(files[path].value)
    ensures path in files && files[path].Damaged? ==>
      (r.Ok? <==> Bak(path) in files && files[Bak(path)].Good?)
      && (r.Ok? ==> r.value == files[Bak(path)].value)
  {
    if path !in files then Ok(empty)
    else if files[path].Good? then Ok(files[path].value)
    else if Bak(path) in files && files[Bak(path)].Good? then Ok(files[Bak(path)].value)
    else Err("unreadable parquet: " + path)
  }

  /** What is written is read back. */
  lemma ReadAfterWrite<T>(now: map<string, Stored<T>>, before: map<string, Stored<T>>, path: string, v: T, empty: T)
    requires AfterAtomicWrite(now, before, path, v)
    ensures ReadSafe(now, path, empty) == Ok(v)
  {
  }

  /**
   * The backup protects the previous version: if the table written by an
   * atomic replace is later found unreadable, the read returns the frame it
   * replaced.
   */
  lemma ReadFallsBackToPrevious<T>(now: map<string, Stored<T>>, before: map<string, Stored<T>>, path: string, v: T, empty: T)
    requires AfterAtomicWrite(now, before, path, v)
    requires path in before && before[path].Good?
    ensures ReadSafe(now[path := Damaged], path, empty) == Ok(before[path].value)
  {
    SidePathsDiffer(path);
  }

  /** A frame that reads and has every required column. */
  predicate Healthy<T>(s: Stored<T>, required: seq<string>, columns: T -> set<string>) {
    s.Good? && forall c :: c in required ==> c in columns(s.value)
  }

  /**
   * `repair_parquet_if_needed(path, required_columns)`: a missing table is
   * restored from any `.bak`; an unreadable table, or one lacking a required
   * column, is replaced by its `.bak` when that one is healthy. In every other
   * case nothing changes.
   */
  method Repair<T>(disk: Disk<T>, path: string, required: seq<string>, columns: T -> set<string>)
    modifies disk
    ensures var f, b := old(disk.files), Bak(path);
      if path !in f then
        disk.files == (if b in f then (f - {b})[path := f[b]] else f)
      else if !Healthy(f[path], required, columns) && b in f && Healthy(f[b], required, columns) then
        disk.files == (f - {b})[path := f[b]]
      else
        disk.files == f
  {
    var bak := Bak(path);
    if path !in disk.files {
      if bak in disk.files {
        disk.Rename(bak, path);
      }
      return;
    }
    if Healthy(disk.files[path], required, columns) {
      return;
    }
    if bak in disk.files && disk.files[bak].Good? {
      if |required| > 0 && exists c :: c in required && c !in columns(disk.files[bak].value) {
        return;
      }
      disk.Rename(bak, path);
    }
  }

  /** After a repair that found a healthy backup for an unhealthy table, the table reads as the backup. */
  lemma RepairRestores<T>(before: map<string, Stored<T>>, after: map<string, Stored<T>>, path: string,
                          required: seq<string>, columns: T -> set<string>, empty: T)
    requires path in before && !Healthy(before[path], required, columns)
    requires Bak(path) in before && Healthy(before[Bak(path)], required, columns)
    requires after == (before - {Bak(path)})[path := before[Bak(path)]]
    ensures Healthy(after[path], required, columns)
    ensures ReadSafe(after, path, empty) == Ok(before[Bak(path)].value)
  {
  }
}
