/**
 * Local snapshots of note content (`loadSnapshots` and `pushSnapshot` in
 * `electron/renderer/state.js`): a list of `{ts, value}` per note kept in
 * `localStorage` under `"snapshots:" + id`, capped at the newest 100.
 *
 * `localStorage` is the map `storage`; its string values appear already parsed.
 */
module Snapshots {

  datatype Snapshot = Snapshot(ts: int, value: string)

  /**
   * A value stored under a key, as `JSON.parse` sees it: the empty string, a
   * list of snapshots, the JSON `null`, or text that does not parse.
   */
  datatype Stored = Blank | Items(items: seq<Snapshot>) | JsonNull | Corrupt

  /** The number of snapshots kept per note. */
  const Cap: nat := 100

  function Key(id: string): string {
    "snapshots:" + id
  }

  /** Different notes use different keys. */
  lemma KeyInjective(a: string, b: string)
    requires Key(a) == Key(b)
    ensures a == b
  {
    assert a == Key(a)[10..];
    assert b == Key(b)[10..];
  }

  /** `loadSnapshots(id)`: the stored list, or `[]` when nothing usable is stored. */
  function Load(storage: map<string, Stored>, id: string): (r: seq<Snapshot>)
    ensures Key(id) !in storage ==> r == []
    ensures Key(id) in storage && !storage[Key(id)].Items? ==> r == []
    ensures Key(id) in storage && storage[Key(id)].Items? ==> r == storage[Key(id)].items
  {
    if Key(id) !in storage then []
    else match storage[Key(id)]
      case Items(items) => items
      case _ => []
  }

  /** The newest `Cap` entries of `s`. */
  function KeepLast(s: seq<Snapshot>): seq<Snapshot> {
    if |s| > Cap then s[|s| - Cap..] else s
  }

  /** The list `pushSnapshot` writes back: the prior list with the new entry, trimmed from the front. */
  function Pushed(prior: seq<Snapshot>, snap: Snapshot): seq<Snapshot> {
    KeepLast(prior + [snap])
  }

  /**
   * After a push the list holds at most 100 entries whatever its prior length,
   * ends with the new entry, and is what is left of the prior list plus the new
   * entry after dropping entries from the front only.
   */
  lemma PushedShape(prior: seq<Snapshot>, snap: Snapshot)
    ensures var r := Pushed(prior, snap);
      && |r| <= Cap
      && |r| == (if |prior| + 1 < Cap then |prior| + 1 else Cap)
      && r[|r| - 1] == snap
      && r == (prior + [snap])[|prior| + 1 - |r|..]
  {
  }

  /** Pushing for one note leaves the snapshots of every other note as they were. */
  lemma PushOther(storage: map<string, Stored>, id: string, other: string, s: Stored)
    requires other != id
    ensures Load(storage[Key(id) := s], other) == Load(storage, other)
  {
    if Key(other) == Key(id) {
      KeyInjective(other, id);
    }
  }

  class SnapshotStore {
    /** `localStorage`. */
    var storage: map<string, Stored>

    constructor (initial: map<string, Stored>)
      ensures storage == initial
    {
      storage := initial;
    }

    /** `loadSnapshots(id)`. */
    function LoadSnapshots(id: string): seq<Snapshot>
      reads this
    {
      Load(storage, id)
    }

    /**
     * `pushSnapshot(id, value)` at clock value `now`: appends the entry, shifts
     * from the front while more than 100 remain, and writes the list back.
     * `writable` is false when `setItem` throws (quota), and then nothing changes.
     */
    method PushSnapshot(id: string, value: string, now: int, writable: bool)
      modifies this
      ensures writable ==> storage == old(storage)[Key(id) := Items(Pushed(Load(old(storage), id), Snapshot(now, value)))]
      ensures !writable ==> storage == old(storage)
    {
      var arr := LoadSnapshots(id);
      ghost var full := arr + [Snapshot(now, value)];
      arr := arr + [Snapshot(now, value)];
      while |arr| > Cap
        invariant |arr| <= |full| && arr == full[|full| - |arr|..]
        invariant |arr| < |full| ==> |arr| >= Cap
        decreases |arr|
      {
        arr := arr[1..];
      }
      assert arr == KeepLast(full);
      if writable {
        storage := storage[Key(id) := Items(arr)];
      }
    }
  }
}
