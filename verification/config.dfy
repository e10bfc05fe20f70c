/**
 * The settings file of the lite app (`lite/src/storage/config.py`): the
 * defaults, loading with a merge over the defaults, and saving through the
 * atomic write.
 */
module Config {
  import opened Wrappers
  import opened Files

  datatype Value = Str(s: string) | Int(i: int) | Bool(b: bool)

  /**
   * What `json.load` gives for the settings file: an object, a value that is
   * falsy in Python (null, an empty list, 0, "", false), or any other value.
   */
  datatype Doc = Object(fields: map<string, Value>) | Falsy | OtherValue

  /** `os.path.join(DATA_DIR, "settings.json")` with the default `DATA_DIR`. */
  const SettingsPath: string := "./lite/data/settings.json"

  /** `DEFAULT_SETTINGS`, with the model names at their defaults. */
  const Defaults: map<string, Value> := map[
    "CHAT_MODEL" := Str("llama3.1"),
    "EMBED_MODEL" := Str("nomic-embed-text"),
    "CHUNK_SIZE" := Int(800),
    "CHUNK_OVERLAP" := Int(100),
    "REINDEX_DEBOUNCE_MS" := Int(500),
    "SEARCH_THROTTLE_MS" := Int(200),
    "MAX_CHUNKS_PER_QUERY" := Int(64),
    "SIMPLE_MODE" := Bool(true)
  ]

  /** `DEFAULT_SETTINGS.copy()` updated with `data or {}`: the data's keys win. */
  function Merge(data: map<string, Value>): (r: map<string, Value>)
    ensures r.Keys == Defaults.Keys + data.Keys
    ensures forall k :: k in data ==> r[k] == data[k]
    ensures forall k :: k in Defaults && k !in data ==> r[k] == Defaults[k]
  {
    Defaults + data
  }

  /** What `load_settings` returns for an existing settings file. */
  function Read(s: Stored<Doc>): (r: map<string, Value>)
    ensures s.Good? && s.value.Object? ==> r == Merge(s.value.fields)
    ensures !(s.Good? && s.value.Object?) ==> r == Defaults
  {
    if s.Good? && s.value.Object? then Merge(s.value.fields) else Defaults
  }

  /** Merging is idempotent, so reading back a saved file gives what was saved. */
  lemma MergeIdempotent(data: map<string, Value>)
    ensures Merge(Merge(data)) == Merge(data)
  {
  }

  /** Loading after saving returns the saved, merged settings. */
  lemma LoadAfterSave(now: map<string, Stored<Doc>>, before: map<string, Stored<Doc>>, data: map<string, Value>)
    requires AfterAtomicWrite(now, before, SettingsPath, Object(Merge(data)))
    ensures SettingsPath in now && Read(now[SettingsPath]) == Merge(data)
  {
    MergeIdempotent(data);
  }

  /**
   * `save_settings(data)`: the defaults overlaid by `data` (absent or empty
   * `data` counts as no keys) are written atomically and returned.
   */
  method SaveSettings(disk: Disk<Doc>, data: Option<map<string, Value>>) returns (merged: map<string, Value>)
    modifies disk
    ensures merged == Merge(data.GetOr(map[]))
    ensures AfterAtomicWrite(disk.files, old(disk.files), SettingsPath, Object(merged))
  {
    merged := Merge(data.GetOr(map[]));
    disk.AtomicWrite(SettingsPath, Object(merged));
  }

  /**
   * `load_settings()`: with no settings file the defaults are written and
   * returned; otherwise the file's keys overlay the defaults, and a file that
   * does not read as an object yields the defaults.
   */
  method LoadSettings(disk: Disk<Doc>) returns (settings: map<string, Value>)
    modifies disk
    ensures SettingsPath !in old(disk.files) ==>
      settings == Defaults && AfterAtomicWrite(disk.files, old(disk.files), SettingsPath, Object(Defaults))
    ensures SettingsPath in old(disk.files) ==>
      settings == Read(old(disk.files)[SettingsPath]) && disk.files == old(disk.files)
  {
    if SettingsPath !in disk.files {
      var saved := SaveSettings(disk, Some(Defaults));
      assert saved == Defaults;
      return Defaults;
    }
    settings := Read(disk.files[SettingsPath]);
  }
}
