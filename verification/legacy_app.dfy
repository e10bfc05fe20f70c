/**
 * The older single-window renderer (`electron/renderer/app.js`): its tab list
 * with its single-open check, tab closing, snapshot recovery and per-editor
 * autosave that records every fired save in an in-memory snapshot list, and
 * `findInNote`.
 *
 * `window.api.notes.get` and `update` are answered by parameters; requests and
 * UI updates are appended to `effects`; timers are the `Edit`/`TimerFire` events.
 * `openNote` awaits its fetch between the single-open check and the push, so
 * the request (`OpenNote`) and its reply (`OpenReply`) are separate events and
 * other events may run in between.
 */
module LegacyApp {
  import opened Wrappers
  import opened Strings
  import opened Seqs
  import Editor
  import Snapshots

  /** One entry of `state.openTabs`: `{ id, title }`; the title is whatever `get` returned. */
  datatype LTab = LTab(id: string, title: Option<string>)

  /** The note `window.api.notes.get` answers with. */
  datatype LNote = LNote(title: Option<string>, content: Option<string>)

  /** What `localStorage.getItem('snapshots:' + id)` holds: nothing, a list of strings, or something unusable. */
  datatype LStored = LBlank | LList(items: seq<string>) | LUnusable

  datatype LView = LView(noteId: string, value: string)

  datatype LEffect =
    | FetchAndRender(noteId: string)
    | ClearEditor
    | Update(noteId: string, content: string)

  function TabIds(tabs: seq<LTab>): (r: seq<string>)
    ensures |r| == |tabs| && forall i :: 0 <= i < |tabs| ==> r[i] == tabs[i].id
  {
    seq(|tabs|, i requires 0 <= i < |tabs| => tabs[i].id)
  }

  /** `openTabs.findIndex(t => t.id === id)`. */
  function TabIndex(tabs: seq<LTab>, id: string): (i: int)
    ensures -1 <= i < |tabs|
    ensures i >= 0 ==> tabs[i].id == id
    ensures i < 0 <==> id !in TabIds(tabs)
    ensures forall j :: 0 <= j < |tabs| && (i < 0 || j < i) ==> tabs[j].id != id
  {
    if tabs == [] then -1
    else if tabs[0].id == id then 0
    else
      var k := TabIndex(tabs[1..], id);
      if k < 0 then -1 else k + 1
  }

  /** `openTabs[0]?.id || null`. */
  function FirstId(tabs: seq<LTab>): (r: Option<string>)
    ensures r.Some? <==> tabs != [] && tabs[0].id != ""
    ensures r.Some? ==> r.value == tabs[0].id
  {
    if tabs != [] && tabs[0].id != "" then Some(tabs[0].id) else None
  }

  /** The restore check: the latest stored string is non-empty and differs from the content; no time check. */
  predicate OffersRestore(stored: LStored, content: Option<string>) {
    && stored.LList? && stored.items != []
    && stored.items[|stored.items| - 1] != ""
    && (content.None? || stored.items[|stored.items| - 1] != content.value)
  }

  function InitialText(stored: LStored, content: Option<string>, accept: bool): (r: string)
    ensures OffersRestore(stored, content) && accept ==> r == stored.items[|stored.items| - 1]
    ensures !(OffersRestore(stored, content) && accept) ==> r == content.GetOr("")
  {
    if OffersRestore(stored, content) && accept then stored.items[|stored.items| - 1] else content.GetOr("")
  }

  /**
   * The two recovery rules differ: here a snapshot older than the saved note is
   * still offered, where the newer editor only offers snapshots taken after
   * the note's `updated_at`.
   */
  lemma RestoreIgnoresTime(id: string, saved: string, snap: string, updatedAt: int)
    requires snap != "" && snap != saved && updatedAt > 0
    ensures OffersRestore(LList([snap]), Some(saved))
    ensures !Editor.OffersRestore(
      Editor.Note(id, None, Some(saved), Some(updatedAt)),
      Some(Snapshots.Snapshot(updatedAt, snap)))
  {
  }

  /** `findInNote`: forward from one after the cursor, backward from one before it. */
  function LegacyFrom(selStart: nat, forward: bool): int {
    if forward then selStart + 1 else selStart - 1
  }

  /**
   * Backward search starts at the same place in both editors, but a forward
   * search here never selects a match that begins at the cursor itself.
   */
  lemma {:induction false} FindDifference(hay: string, query: string, selStart: nat)
    ensures Editor.FindMatch(hay, query, LegacyFrom(selStart, false), false)
         == Editor.FindMatch(hay, query, Editor.FindFrom(selStart, false), false)
    ensures var r := Editor.FindMatch(hay, query, LegacyFrom(selStart, true), true);
      r.Some? ==> r.value.start > selStart
    ensures query != "" && selStart < |hay| && MatchAt(LowerStr(hay), LowerStr(query), selStart) ==>
      Editor.FindMatch(hay, query, Editor.FindFrom(selStart, true), true) == Some(Editor.Range(selStart, selStart + |query|))
  {
    BackwardSame(hay, query, selStart);
    ForwardSkipsCursor(hay, query, selStart);
    ForwardAtCursor(hay, query, selStart);
  }

  lemma BackwardSame(hay: string, query: string, selStart: nat)
    ensures Editor.FindMatch(hay, query, LegacyFrom(selStart, false), false)
         == Editor.FindMatch(hay, query, Editor.FindFrom(selStart, false), false)
  {
    assert Clamp(LegacyFrom(selStart, false), 0, |hay|) == Clamp(Editor.FindFrom(selStart, false), 0, |hay|);
  }

  lemma ForwardSkipsCursor(hay: string, query: string, selStart: nat)
    ensures var r := Editor.FindMatch(hay, query, LegacyFrom(selStart, true), true);
      r.Some? ==> r.value.start > selStart
  {
    var r := Editor.FindMatch(hay, query, LegacyFrom(selStart, true), true);
    if r.Some? {
      assert r.value.start + |query| <= |hay| && query != "";
      assert Clamp(selStart + 1, 0, |hay|) == selStart + 1;
    }
  }

  lemma ForwardAtCursor(hay: string, query: string, selStart: nat)
    ensures query != "" && selStart < |hay| && MatchAt(LowerStr(hay), LowerStr(query), selStart) ==>
      Editor.FindMatch(hay, query, Editor.FindFrom(selStart, true), true) == Some(Editor.Range(selStart, selStart + |query|))
  {
    if query != "" && selStart < |hay| && MatchAt(LowerStr(hay), LowerStr(query), selStart) {
      assert |LowerStr(query)| > 0;
      assert IndexOf(LowerStr(hay), LowerStr(query), selStart) == selStart;
    }
  }

  class LegacyApp {
    var openTabs: seq<LTab>
    var activeId: Option<string>
    /** `state.snapshots`: every string pushed per note, never trimmed. */
    var snapshots: map<string, seq<string>>
    /** `localStorage`, keyed by note id. */
    var storage: map<string, LStored>
    /** Every textarea rendered so far; the last one is on screen. */
    var views: seq<LView>
    /** Views whose own debounce timer is running. */
    var timers: set<nat>
    /** Views whose `update` request awaits its reply, oldest first. */
    var inflight: seq<nat>
    /** Note ids whose `openNote` fetch awaits its reply, oldest first. */
    var fetching: seq<string>
    var selection: Editor.Range
    var effects: seq<LEffect>

    ghost predicate Valid()
      reads this
    {
      Tracked(openTabs, activeId, timers, inflight, |views|)
    }

    constructor (initial: map<string, LStored>)
      ensures Valid()
      ensures openTabs == [] && activeId == None && snapshots == map[] && storage == initial
      ensures views == [] && timers == {} && inflight == [] && fetching == [] && effects == []
    {
      openTabs := [];
      activeId := None;
      snapshots := map[];
      storage := initial;
      views := [];
      timers := {};
      inflight := [];
      fetching := [];
      selection := Editor.Range(0, 0);
      effects := [];
    }

    /**
     * `renderEditor(note)` for note `id`, with `accept` the answer to the
     * restore prompt; assigning the text to the new textarea leaves the caret
     * at its end.
     */
    method RenderEditor(id: string, note: LNote, accept: bool)
      requires Valid()
      modifies this
      ensures Valid()
      ensures views == old(views) + [LView(id, InitialText(LookupStored(storage, id), note.content, accept))]
      ensures selection == Editor.Range(|views[|views| - 1].value|, |views[|views| - 1].value|)
      ensures openTabs == old(openTabs) && activeId == old(activeId) && snapshots == old(snapshots)
      ensures storage == old(storage) && timers == old(timers) && inflight == old(inflight)
      ensures fetching == old(fetching) && effects == old(effects)
    {
      var text := InitialText(LookupStored(storage, id), note.content, accept);
      views := views + [LView(id, text)];
      selection := Editor.Range(|text|, |text|);
    }

    /**
     * `openNote(id)` up to its `await`: an id that already has a tab only
     * becomes active; for any other id the note is requested and nothing else
     * changes yet.
     */
    method OpenNote(id: string)
      requires Valid()
      modifies this
      ensures Valid()
      ensures id in TabIds(old(openTabs)) ==> activeId == Some(id) && fetching == old(fetching)
      ensures id !in TabIds(old(openTabs)) ==> activeId == old(activeId) && fetching == old(fetching) + [id]
      ensures openTabs == old(openTabs) && views == old(views) && selection == old(selection)
      ensures snapshots == old(snapshots) && storage == old(storage)
      ensures timers == old(timers) && inflight == old(inflight) && effects == old(effects)
    {
      if TabIndex(openTabs, id) >= 0 {
        activeId := Some(id);
      } else {
        fetching := fetching + [id];
      }
    }

    /**
     * The reply to the `j`-th outstanding `openNote` fetch. A failed fetch
     * rejects the call and changes nothing else. A note is appended as a tab
     * with its fetched title, without checking again whether a tab for it was
     * opened meanwhile, made active and shown in the editor.
     */
    method OpenReply(j: nat, reply: Result<LNote, string>, accept: bool)
      requires Valid() && j < |fetching|
      modifies this
      ensures Valid()
      ensures fetching == old(fetching[..j] + fetching[j + 1..])
      ensures reply.Err? ==>
        && openTabs == old(openTabs) && activeId == old(activeId)
        && views == old(views) && selection == old(selection)
      ensures reply.Ok? ==> var id := old(fetching[j]);
        && openTabs == old(openTabs) + [LTab(id, reply.value.title)]
        && activeId == Some(id)
        && views == old(views) + [LView(id, InitialText(LookupStored(storage, id), reply.value.content, accept))]
        && selection == Editor.Range(|views[|views| - 1].value|, |views[|views| - 1].value|)
      ensures snapshots == old(snapshots) && storage == old(storage)
      ensures timers == old(timers) && inflight == old(inflight) && effects == old(effects)
    {
      var id := fetching[j];
      fetching := fetching[..j] + fetching[j + 1..];
      if reply.Ok? {
        var tabs := openTabs + [LTab(id, reply.value.title)];
        assert TabIds(tabs) == TabIds(openTabs) + [id];
        openTabs, activeId := tabs, Some(id);
        RenderEditor(id, reply.value, accept);
      }
    }

    /**
     * `closeTab(id)`: removes the tab if present; when it was active the first
     * remaining tab becomes active (none if there is none or its id is empty),
     * then that note is fetched for the editor or the editor is cleared.
     */
    method CloseTab(id: string)
      requires Valid()
      modifies this
      ensures snapshots == old(snapshots) && storage == old(storage) && views == old(views)
      ensures timers == old(timers) && inflight == old(inflight) && fetching == old(fetching)
      ensures selection == old(selection)
      ensures openTabs == Closed(old(openTabs), id)
      ensures Distinct(TabIds(old(openTabs))) ==> id !in TabIds(openTabs)
      ensures activeId == if old(activeId) == Some(id) then FirstId(openTabs) else old(activeId)
      ensures effects == old(effects) + [if activeId.Some? && activeId.value != "" then FetchAndRender(activeId.value) else ClearEditor]
      ensures Valid()
    {
      var tabs := Closed(openTabs, id);
      var active := if activeId == Some(id) then FirstId(tabs) else activeId;
      CloseKeeps(openTabs, activeId, id, timers, inflight, |views|);
      var e := if active.Some? && active.value != "" then FetchAndRender(active.value) else ClearEditor;
      openTabs, activeId, effects := tabs, active, effects + [e];
    }

    /**
     * An `input` event on the textarea on screen, after which the browser
     * leaves the selection at `caret`: its text becomes `value` and its timer
     * restarts.
     */
    method Edit(value: string, caret: Editor.Range)
      requires Valid() && views != []
      requires caret.start <= caret.end <= |value|
      modifies this
      ensures Valid()
      ensures views == old(views)[|old(views)| - 1 := LView(old(views)[|old(views)| - 1].noteId, value)]
      ensures timers == old(timers) + {|views| - 1}
      ensures selection == caret
      ensures openTabs == old(openTabs) && activeId == old(activeId) && snapshots == old(snapshots)
      ensures storage == old(storage) && inflight == old(inflight) && fetching == old(fetching) && effects == old(effects)
    {
      var cur := |views| - 1;
      views := views[cur := LView(views[cur].noteId, value)];
      timers := timers + {cur};
      selection := caret;
    }

    /**
     * The timer of view `k` fires: its text is appended to the note's in-memory
     * snapshot list, the whole list is written to storage (when `writable`), and
     * `update` is sent.
     */
    method TimerFire(k: nat, writable: bool)
      requires Valid() && k in timers
      modifies this
      ensures openTabs == old(openTabs) && activeId == old(activeId) && views == old(views)
      ensures fetching == old(fetching) && selection == old(selection)
      ensures var v := old(views[k]);
        && snapshots == old(snapshots)[v.noteId := old(SnapshotsOf(snapshots, views[k].noteId)) + [v.value]]
        && storage == (if writable then old(storage)[v.noteId := LList(snapshots[v.noteId])] else old(storage))
        && effects == old(effects) + [Update(v.noteId, v.value)]
      ensures inflight == old(inflight) + [k]
      ensures timers == old(timers) - {k}
      ensures Valid()
    {
      var v := views[k];
      var list := SnapshotsOf(snapshots, v.noteId) + [v.value];
      FireKeeps(openTabs, activeId, timers, inflight, |views|, k);
      snapshots, storage := snapshots[v.noteId := list], if writable then storage[v.noteId := LList(list)] else storage;
      effects, inflight, timers := effects + [Update(v.noteId, v.value)], inflight + [k], timers - {k};
    }

    /**
     * The reply to the `j`-th outstanding `update` arrives carrying `replyTitle`
     * (absent when the reply has no title): the first tab of that note takes it.
     */
    method Resolve(j: nat, replyTitle: Option<string>)
      requires Valid() && j < |inflight|
      modifies this
      ensures activeId == old(activeId) && snapshots == old(snapshots) && storage == old(storage)
      ensures views == old(views) && timers == old(timers) && effects == old(effects)
      ensures fetching == old(fetching) && selection == old(selection)
      ensures openTabs == Retitled(old(openTabs), old(views[inflight[j]].noteId), replyTitle)
      ensures TabIds(openTabs) == TabIds(old(openTabs))
      ensures inflight == old(inflight[..j] + inflight[j + 1..])
      ensures Valid()
    {
      var tabs := Retitled(openTabs, views[inflight[j]].noteId, replyTitle);
      ResolveKeeps(openTabs, activeId, timers, inflight, |views|, views[inflight[j]].noteId, replyTitle, j);
      openTabs, inflight := tabs, inflight[..j] + inflight[j + 1..];
    }

    /** `findInNote(area, q, dir)` on the textarea on screen. */
    method FindInNote(query: string, forward: bool)
      requires views != []
      modifies this
      ensures var r := Editor.FindMatch(old(views[|views| - 1].value), query, LegacyFrom(old(selection).start, forward), forward);
        selection == if r.Some? then r.value else old(selection)
      ensures openTabs == old(openTabs) && activeId == old(activeId) && snapshots == old(snapshots)
      ensures storage == old(storage) && views == old(views) && timers == old(timers)
      ensures inflight == old(inflight) && fetching == old(fetching) && effects == old(effects)
    {
      var r := Editor.FindMatch(views[|views| - 1].value, query, LegacyFrom(selection.start, forward), forward);
      if r.Some? {
        selection := r.value;
      }
    }
  }

  /** The active id names an open tab, and every timer and request belongs to one of the `n` views. */
  predicate Tracked(tabs: seq<LTab>, active: Option<string>, timers: set<nat>, inflight: seq<nat>, n: nat) {
    && (active.None? || active.value in TabIds(tabs))
    && (forall k :: k in timers ==> k < n)
    && Below(inflight, n)
  }

  /** `openTabs` after `closeTab(id)`: the first tab with the id spliced out, if there is one. */
  function Closed(tabs: seq<LTab>, id: string): (r: seq<LTab>)
    ensures TabIndex(tabs, id) >= 0 ==> |r| == |tabs| - 1
    ensures TabIndex(tabs, id) < 0 ==> r == tabs
  {
    var i := TabIndex(tabs, id);
    if i >= 0 then RemoveAt(tabs, i) else tabs
  }

  /** Closing a tab keeps the state tracked, and with distinct ids no tab with the id is left. */
  lemma CloseKeeps(tabs: seq<LTab>, active: Option<string>, id: string, timers: set<nat>, inflight: seq<nat>, n: nat)
    requires Tracked(tabs, active, timers, inflight, n)
    ensures var r := Closed(tabs, id);
      && Tracked(r, if active == Some(id) then FirstId(r) else active, timers, inflight, n)
      && (Distinct(TabIds(tabs)) ==> id !in TabIds(r))
  {
    var i := TabIndex(tabs, id);
    if i >= 0 {
      RemoveKeepsOthers(tabs, i);
      if Distinct(TabIds(tabs)) {
        RemoveKeepsDistinct(tabs, i);
      }
    }
  }

  /** A fired timer becomes an outstanding request of the same view. */
  lemma FireKeeps(tabs: seq<LTab>, active: Option<string>, timers: set<nat>, inflight: seq<nat>, n: nat, k: nat)
    requires Tracked(tabs, active, timers, inflight, n) && k in timers
    ensures Tracked(tabs, active, timers - {k}, inflight + [k], n)
  {
  }

  /** The first tab of note `id`, if any, takes `title`. */
  function Retitled(tabs: seq<LTab>, id: string, title: Option<string>): (r: seq<LTab>)
    ensures |r| == |tabs|
  {
    var i := TabIndex(tabs, id);
    if i >= 0 then tabs[i := LTab(id, title)] else tabs
  }

  /** A reply retitles at most one tab and retires one request. */
  lemma ResolveKeeps(tabs: seq<LTab>, active: Option<string>, timers: set<nat>, inflight: seq<nat>, n: nat,
                     id: string, title: Option<string>, j: nat)
    requires Tracked(tabs, active, timers, inflight, n) && j < |inflight|
    ensures TabIds(Retitled(tabs, id, title)) == TabIds(tabs)
    ensures Tracked(Retitled(tabs, id, title), active, timers, inflight[..j] + inflight[j + 1..], n)
  {
    var i := TabIndex(tabs, id);
    if i >= 0 {
      RetitleKeepsIds(tabs, i, title);
    }
    DropPending(inflight, j, n);
  }

  /** Retitling a tab keeps every id in place. */
  lemma RetitleKeepsIds(tabs: seq<LTab>, i: nat, title: Option<string>)
    requires i < |tabs|
    ensures TabIds(tabs[i := LTab(tabs[i].id, title)]) == TabIds(tabs)
  {
  }

  /** Dropping one pending view keeps every other pending view in range. */
  lemma DropPending(q: seq<nat>, j: nat, n: nat)
    requires j < |q| && Below(q, n)
    ensures Below(q[..j] + q[j + 1..], n)
  {
    var r := q[..j] + q[j + 1..];
    forall i | 0 <= i < |r| ensures r[i] < n {
      assert r[i] == if i < j then q[i] else q[i + 1];
    }
  }

  predicate Below(q: seq<nat>, n: nat) {
    forall i :: 0 <= i < |q| ==> q[i] < n
  }

  function LookupStored(storage: map<string, LStored>, id: string): LStored {
    if id in storage then storage[id] else LBlank
  }

  /** `state.snapshots[id] || []`. */
  function SnapshotsOf(snapshots: map<string, seq<string>>, id: string): seq<string> {
    if id in snapshots then snapshots[id] else []
  }

  /** Removing one tab keeps every other id. */
  lemma RemoveKeepsOthers(tabs: seq<LTab>, i: nat)
    requires i < |tabs|
    ensures forall x :: x in TabIds(tabs) && x != tabs[i].id ==> x in TabIds(RemoveAt(tabs, i))
  {
    assert TabIds(RemoveAt(tabs, i)) == RemoveAt(TabIds(tabs), i);
    forall x | x in TabIds(tabs) && x != tabs[i].id ensures x in TabIds(RemoveAt(tabs, i)) {
      assert x in multiset(TabIds(tabs));
    }
  }

  /** Removing one tab keeps the ids distinct and drops exactly that id. */
  lemma RemoveKeepsDistinct(tabs: seq<LTab>, i: nat)
    requires Distinct(TabIds(tabs)) && i < |tabs|
    ensures Distinct(TabIds(RemoveAt(tabs, i)))
    ensures tabs[i].id !in TabIds(RemoveAt(tabs, i))
    ensures forall x :: x in TabIds(RemoveAt(tabs, i)) <==> x in TabIds(tabs) && x != tabs[i].id
  {
    assert TabIds(RemoveAt(tabs, i)) == RemoveAt(TabIds(tabs), i);
  }

  /**
   * Two clicks on the same note before the first fetch is answered open two
   * tabs for it: the single-open check runs before the `await`, and the reply
   * pushes without checking again.
   */
  method DoubleOpen(id: string, note: LNote) returns (app: LegacyApp)
    ensures TabIds(app.openTabs) == [id, id]
    ensures app.activeId == Some(id)
  {
    app := new LegacyApp(map[]);
    app.OpenNote(id);
    app.OpenNote(id);
    app.OpenReply(0, Ok(note), false);
    app.OpenReply(0, Ok(note), false);
  }
}
