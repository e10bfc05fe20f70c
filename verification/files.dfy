/**
 * The file system the lite storage layer works on, as a map from path to
 * content, and the write-to-temporary-then-rename protocol that both
 * `_atomic_write` (`lite/src/storage/config.py`) and `atomic_replace`
 * (`lite/src/storage/parquet_util.py`) follow. A file either holds a value
 * that parses (`Good`) or one that does not (`Damaged`).
 */
module Files {

  datatype Stored<T> = Good(value: T) | Damaged

  function Tmp(path: string): string { path + ".tmp" }
  function Bak(path: string): string { path + ".bak" }

  /** The three names the protocol touches are pairwise different. */
  lemma SidePathsDiffer(path: string)
    ensures Tmp(path) != path && Bak(path) != path && Tmp(path) != Bak(path)
  {
    assert |Tmp(path)| == |path| + 4 == |Bak(path)|;
    assert Tmp(path)[|path| + 1] == 't' && Bak(path)[|path| + 1] == 'b';
  }

  /** Files other than `path`, its `.tmp` and its `.bak` are as they were. */
  ghost predicate OthersUnchanged<T>(now: map<string, Stored<T>>, before: map<string, Stored<T>>, path: string) {
    forall p :: p != path && p != Tmp(path) && p != Bak(path) ==>
      (p in now <==> p in before) && (p in now ==> now[p] == before[p])
  }

  /** The state `atomic_replace(path, v)` leaves behind, given the state `before`. */
  ghost predicate AfterAtomicWrite<T>(now: map<string, Stored<T>>, before: map<string, Stored<T>>, path: string, v: T) {
    && path in now && now[path] == Good(v)
    && Tmp(path) !in now
    && (path in before ==> Bak(path) in now && now[Bak(path)] == before[path])
    && (path !in before ==>
         (Bak(path) in now <==> Bak(path) in before)
         && (Bak(path) in now ==> now[Bak(path)] == before[Bak(path)]))
    && OthersUnchanged(now, before, path)
  }

  class Disk<T> {
    var files: map<string, Stored<T>>

    constructor (initial: map<string, Stored<T>>)
      ensures files == initial
    {
      files := initial;
    }

    /** Writing a file creates it or replaces its content. */
    method Write(path: string, v: T)
      modifies this
      ensures files == old(files)[path := Good(v)]
    {
      files := files[path := Good(v)];
    }

    /** `os.remove(path)` of an existing file. */
    method Remove(path: string)
      requires path in files
      modifies this
      ensures files == old(files) - {path}
    {
      files := files - {path};
    }

    /** `os.replace(src, dst)`: `dst` takes the content of `src`, which disappears. */
    method Rename(src: string, dst: string)
      requires src in files
      modifies this
      ensures files == (old(files) - {src})[dst := old(files)[src]]
    {
      files := (files - {src})[dst := files[src]];
    }

    /**
     * The atomic replace: write `.tmp`, drop an old `.bak`, move the current
     * file to `.bak`, and rename `.tmp` over the path. Afterwards the path holds
     * the new value, `.bak` the previous content when there was one (otherwise
     * whatever `.bak` held before), `.tmp` is gone, and nothing else changed.
     */
    method AtomicWrite(path: string, v: T)
      modifies this
      ensures AfterAtomicWrite(files, old(files), path, v)
    {
      SidePathsDiffer(path);
      var tmp, bak := Tmp(path), Bak(path);
      ghost var before := files;
      Write(tmp, v);
      ghost var staged := files;
      if path in files {
        if bak in files {
          Remove(bak);
        }
        assert files == staged - {bak};
        Rename(path, bak);
      }
      ghost var backed := files;
      Rename(tmp, path);
      if path in before {
        ReplacedExisting(files, backed, staged, before, path, v);
      } else {
        CreatedNew(files, staged, before, path, v);
      }
    }
  }

  /** The protocol's steps when the path already existed. */
  lemma ReplacedExisting<T>(now: map<string, Stored<T>>, backed: map<string, Stored<T>>,
                            staged: map<string, Stored<T>>, before: map<string, Stored<T>>, path: string, v: T)
    requires path in before
    requires staged == before[Tmp(path) := Good(v)]
    requires backed == ((staged - {Bak(path)}) - {path})[Bak(path) := staged[path]]
    requires Tmp(path) in backed && now == (backed - {Tmp(path)})[path := backed[Tmp(path)]]
    ensures AfterAtomicWrite(now, before, path, v)
  {
    SidePathsDiffer(path);
  }

  /** The protocol's steps when the path did not exist yet. */
  lemma CreatedNew<T>(now: map<string, Stored<T>>, staged: map<string, Stored<T>>,
                      before: map<string, Stored<T>>, path: string, v: T)
    requires path !in before
    requires staged == before[Tmp(path) := Good(v)]
    requires Tmp(path) in staged && now == (staged - {Tmp(path)})[path := staged[Tmp(path)]]
    ensures AfterAtomicWrite(now, before, path, v)
  {
    SidePathsDiffer(path);
  }
}
