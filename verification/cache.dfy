/**
 * The file-backed string cache of the backend (`backend/app/utils/cache.py`):
 * a dictionary loaded from a JSON file when the cache is opened and written
 * back in full on every `set`.
 */
module FileCache {
  import opened Wrappers

  /** The cache file: absent, a JSON object of strings, or text that is not valid JSON. */
  datatype File = Missing | Json(data: map<string, string>) | Invalid

  /** The dictionary `__init__` starts from: the file's object, or empty when there is none. */
  function Loaded(f: File): (r: map<string, string>)
    ensures f.Json? ==> r == f.data
    ensures !f.Json? ==> r == map[]
  {
    match f
    case Json(d) => d
    case _ => map[]
  }

  class Cache {
    var file: File
    var data: map<string, string>

    /** What is on disk is what a newly opened cache would hold. */
    predicate Valid()
      reads this
    {
      Loaded(file) == data
    }

    /** `Cache(path)`: a missing file or invalid JSON gives an empty cache. */
    constructor (existing: File)
      ensures file == existing && data == Loaded(existing) && Valid()
    {
      file := existing;
      data := Loaded(existing);
    }

    /** `get(key)`: the stored value, or None when the key is absent. */
    function Get(key: string): (r: Option<string>)
      reads this
      ensures r.Some? <==> key in data
      ensures r.Some? ==> r.value == data[key]
    {
      if key in data then Some(data[key]) else None
    }

    /**
     * `set(key, value)`: the key now maps to the value, every other key is as
     * it was, and the whole dictionary is written to the file.
     */
    method Set(key: string, value: string)
      modifies this
      ensures data == old(data)[key := value]
      ensures file == Json(data) && Valid()
      ensures Get(key) == Some(value)
      ensures forall k :: k != key ==> Get(k) == old(Get(k))
    {
      data := data[key := value];
      file := Json(data);
    }
  }

  /** Opening the file a cache has just written gives back its dictionary. */
  lemma ReopenAfterSet(m: map<string, string>, key: string, value: string)
    ensures Loaded(Json(m[key := value])) == m[key := value]
    ensures key in Loaded(Json(m[key := value])) && Loaded(Json(m[key := value]))[key] == value
  {
  }
}
