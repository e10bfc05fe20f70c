# FrankTheLocalLLM core, modelled in Dafny

This project models the logic at the heart of FrankTheLocalLLM, a local note-taking shell with a language-model side panel, and proves properties of that model. It covers four parts.

- **The Electron renderer.** The tab session (open, close, focus, retitle, drag reorder, stacks, selection and the stack-grouping rule of the tab strip) is the class `Session.TabSession`. Per-note snapshots in local storage are in `Snapshots`. The autosave and recovery editor is an event-driven state machine, `Editor.EditorState`, and the older single-window editor is `LegacyApp.LegacyApp`. The in-memory keyword index is `Keyword.KeywordIndex`, the groups panel is `GroupsView.GroupsPanel`, and the splitter clamps are in `Layout`.
- **The text helpers.** Fixed-size chunking with overlap and the ingest loop are in `Chunking`. Splitting a Markdown file at headings is in `Headings`, and wiki-link extraction is in `Links`.
- **The lite storage layer.** The file system is a map from paths to stored values, held by `Files.Disk`. The tmp/`.bak` atomic replace, the safe read with backup fallback and the repair are in `Files` and `Parquet`. Settings are in `Config`, notes in `NotesStore`, groups and memberships in `GroupsStore`, and saved tab sessions in `TabsStore`.
- **The backend containers and the C# SQL helpers.** The unit of work and `get_uow` are in `Uow`, and the file-backed cache is in `FileCache`. `Sql` holds `ToSnakeCase`, the repository SQL templates, the entry query builder and the boolean/integer type handler.

Modelling conventions:

- Code that works by updating state is modelled as classes with `modifies` clauses. Each method is proved against a specification function, with the source's promises proved about that function. Pure helpers are functions and lemmas.
- A Python exception or a failed JavaScript promise is the `Err` case of `Wrappers.Result`.
- Fresh identifiers (`uuid4()`), the clock (`time.time()`, `Date.now()`) and `confirm()` answers are parameters. So are the replies of the preload API (`window.api.*`), whose implementation is not part of this model.
- Calls made to other processes are recorded in a log field of the class that makes them, in order.
- A pandas DataFrame is a sequence of records. `df.empty` on a table with rows of the known schema is the empty sequence.

## Model

| member | source | states |
|---|---|---|
| Keyword.RunLength | electron/renderer/keyword.js:8 | the leading run of `[a-z0-9_]` characters is all word characters and stops at the first non-word character |
| Keyword.Runs | electron/renderer/keyword.js:8 | every match of `/[a-z0-9_]+/g` is a non-empty string of word characters |
| Keyword.RunsEmpty | electron/renderer/keyword.js:8 | the text has no tokens exactly when it has no word character (the empty-match fallback) |
| Keyword.RunsSeparator | electron/renderer/keyword.js:8 | a non-word character splits the tokens: the tokens of `x c y` are those of `x` followed by those of `y` |
| Keyword.RunsSingle | electron/renderer/keyword.js:8 | a non-empty run of word characters is a single token (matches are maximal) |
| Keyword.CountTokens | electron/renderer/keyword.js:21-24 | the counting loop builds exactly the frequency map of the token list |
| Keyword.FreqCounts | electron/renderer/keyword.js:21-24 | the frequency map's keys are the tokens, and each key maps to its number of occurrences |
| Keyword.FreqTotal | electron/renderer/keyword.js:21-24 | the counts of the frequency map add up to the number of tokens |
| Keyword.EntryCounts | electron/renderer/keyword.js:20-26 | the stored entry counts the tokens of `title + ' ' + content`, keeps the content alone as its text, and takes the clock for a falsy stamp |
| Keyword.ScoreNote | electron/renderer/keyword.js:35-42 | the loop computes term frequency plus 0.25 times the recency boost |
| Keyword.RecencyBounds | electron/renderer/keyword.js:39-40 | the recency boost lies in [0, 1], is 0 from 14 days of age, 1 for a stamp not in the past, and positive within 14 days |
| Keyword.MatchScoresPositive | electron/renderer/keyword.js:35-42 | a query token present in the note makes its score positive |
| Keyword.RecencyRanks | electron/renderer/keyword.js:35-42 | with equal term frequency, a note updated within 14 days outranks an older one |
| Keyword.SnippetWithoutMatch | electron/renderer/keyword.js:44-47 | without a case-insensitive hit the snippet is the whole text up to 120 characters, else its first 120 plus '…' |
| Keyword.SnippetAtMatch | electron/renderer/keyword.js:48-54 | with a hit, the marked span is the first hit, at most 40 characters precede and 80 follow it, and '…' marks exactly the cut ends |
| Keyword.HigherScoreIsPreorder | electron/renderer/keyword.js:68 | the comparator `b.score - a.score` is a total preorder, so the sort is well defined |
| Keyword.CandidatesExact | electron/renderer/keyword.js:61-67 | the unsorted hits are exactly the listed ids that are indexed and score above zero, each with its title, score and snippet of the first query token |
| Keyword.UnmatchedRecentNoteReturned | electron/renderer/keyword.js:64-65 | a note matching no query token is still returned while it is younger than 14 days (the recency boost alone passes `sc <= 0`) |
| Keyword.FallbackTitle | electron/renderer/keyword.js:16 | the title fallback (fetched title, else listed title, else Untitled) is never empty |
| Keyword.BuiltKeys | electron/renderer/keyword.js:11-18 | after a rebuild the index holds exactly the listed notes whose fetch succeeded |
| Keyword.BuiltOrderKeys | electron/renderer/keyword.js:11-25 | the key order after a rebuild lists exactly the keys of the rebuilt index, each once |
| Keyword.BuiltLast | electron/renderer/keyword.js:13-17 | each entry comes from the last successful fetch of its id |
| Keyword.KeywordIndex.constructor | electron/renderer/keyword.js:3-5 | the index starts empty |
| Keyword.KeywordIndex.AddOrUpdate | electron/renderer/keyword.js:20-26 | the id's entry is replaced by the new one; a new id goes to the end of the Map's key order, an existing one keeps its place |
| Keyword.KeywordIndex.UpdateFromSave | electron/renderer/keyword.js:28-33 | a null title or content keeps the stored one; an unknown id starts from an empty entry |
| Keyword.Stepped | electron/renderer/keyword.js:13-17 | after a reply, the rebuild moves on to its next note, or is retired after its last note; the other pending rebuilds are unchanged |
| Keyword.KeywordIndex.StartBuild | electron/renderer/keyword.js:11-14 | the index is cleared at once, so a search before the first reply sees nothing; a non-empty list leaves the call waiting for the fetch of its first note |
| Keyword.KeywordIndex.BuildReply | electron/renderer/keyword.js:14-17 | a successful reply is added into the index as it is at that moment, whatever ran since the rebuild began; a failed one changes nothing; the loop moves on or ends |
| Keyword.KeywordIndex.BuildIndex | electron/renderer/keyword.js:11-18 | with no other event between its awaits, the rebuild leaves the entries built from the successful fetches, its keys in the order of their first successful fetch, and no rebuild pending |
| Keyword.SaveDuringRebuild | electron/renderer/keyword.js:11-33 | an autosave that lands while a rebuild awaits is indexed, and ahead of the rebuilt note in the key order |
| Keyword.UndisturbedOrder | electron/renderer/keyword.js:11-18 | the same rebuild with nothing in between lists only the fetched note |
| Keyword.KeywordIndex.SearchIds | electron/renderer/keyword.js:56-70 | a query without tokens gives no hits; otherwise the result is a permutation of the candidates, sorted by non-increasing score |
| Keyword.KeywordIndex.SearchAll | electron/renderer/keyword.js:72-74 | searches every indexed note in the Map's insertion order |
| Keyword.KeywordIndex.SearchNote | electron/renderer/keyword.js:76-78 | at most one hit, for that note, and exactly one when the note is indexed and scores above zero |
| Keyword.KeywordIndex.SearchGroup | electron/renderer/keyword.js:80-85 | a failed membership fetch or a query without tokens gives no hits; otherwise the group's note ids (none when the list is missing) are searched, best score first |
| Snapshots.KeyInjective | electron/renderer/state.js:28 | different note ids use different storage keys |
| Snapshots.Load | electron/renderer/state.js:26-32 | the stored list when one parses; an absent, empty, null or unparsable value gives no snapshots |
| Snapshots.PushedShape | electron/renderer/state.js:34-41 | after a push the list ends with the new entry, has at most 100 entries, and is the prior list plus the entry with the oldest entries dropped from the front only |
| Snapshots.PushOther | electron/renderer/state.js:34-41 | a push for one note leaves every other note's snapshots unchanged |
| Snapshots.SnapshotStore.constructor | electron/renderer/state.js:26-28 | the store starts from the given local storage |
| Snapshots.SnapshotStore.PushSnapshot | electron/renderer/state.js:34-41 | storage maps the note's key to the pushed and trimmed list; when `setItem` throws nothing changes |
| Session.FindIndex | electron/renderer/main.js:60 | the index of the first tab with the id, or -1 when no tab has it |
| Session.FindTab | electron/renderer/state.js:19 | the first tab with the id, and a tab exactly when some open tab has that id |
| Session.GetActive | electron/renderer/state.js:15-17 | the open tab whose id is the active id, or none when nothing active is open |
| Session.Persisted | electron/renderer/state.js:21-22 | one record per open tab, in order, with its note id, its stack id or null, and its index as position |
| Session.RemoveFirstIsWithout | electron/renderer/main.js:60-61 | with unique ids, splicing out the first match removes every tab with that id |
| Session.CloseStep | electron/renderer/main.js:59-62 | closing keeps the ids unique and leaves the active id naming an open tab or null |
| Session.WithoutUnique | electron/renderer/main.js:59-61 | removing tabs keeps ids unique, and the ids left are the old ones not removed |
| Session.MoveKeepsUnique | electron/renderer/tabs.js:86-87 | the splice-out/splice-in drag reorder is a permutation with the same ids, and keeps the ids unique when they were |
| Session.AfterDrop | electron/renderer/tabs.js:78-90 | when a tab other than the target is dragged and both are open, the dragged tab lands at the target's index and the remaining tabs keep their order; otherwise nothing moves; always a permutation with the same ids, unique when they were |
| Session.Toggled | electron/renderer/tabs.js:121-123 | toggling flips membership of the id and of no other id |
| Session.ToggleTwice | electron/renderer/tabs.js:121-123 | toggling the same id twice restores the selection |
| Session.BucketsKeys | electron/renderer/tabs.js:9-15 | the stack buckets come in the order in which their keys first occur, and no key repeats |
| Session.BucketsMembers | electron/renderer/tabs.js:10-14 | every bucket is non-empty and holds only tabs with its key |
| Session.BucketsPartition | electron/renderer/tabs.js:10-14 | every tab lands in exactly one bucket: the buckets together are a permutation of the open tabs |
| Session.Face | electron/renderer/tabs.js:20 | a stack shows its active member when it has one, otherwise its first |
| Session.ShowPlainIff | electron/renderer/tabs.js:16-21 | a bucket is shown as a plain tab exactly when it is the unstacked key with one tab; otherwise it is a header over all its tabs |
| Session.FirstActive | electron/renderer/main.js:61 | the first remaining tab's id, or null when there is none or its id is empty |
| Session.CloseReportsOnce | electron/renderer/main.js:59-69 | `closeTab` always reports exactly one close, for the id it was given, whether or not a tab matched |
| Session.TabSession.constructor | electron/renderer/state.js:1-9 | no tabs, nothing active, nothing selected or dragged |
| Session.TabSession.SetActive | electron/renderer/state.js:11-13 | assigns the active id and nothing else |
| Session.TabSession.PersistTabs | electron/renderer/state.js:21-24 | sends the persisted records for session "main" and changes no state |
| Session.TabSession.RegisterOpenTab | electron/renderer/tabs.js:112-119 | a new id is appended unstacked, activated and persisted; a known id changes nothing |
| Session.TabSession.ToggleSelect | electron/renderer/tabs.js:121-125 | the selection is toggled for the id; nothing else changes |
| Session.TabSession.MergeSelectedIntoStack | electron/renderer/tabs.js:93-103 | with two or more selected ids every selected tab gets the stack id `s:` + clock, others keep theirs, the selection is cleared and the tabs persisted; otherwise nothing changes |
| Session.TabSession.UnstackTab | electron/renderer/tabs.js:105-110 | clears the stack id of that tab only and persists; an unknown id is a no-op |
| Session.TabSession.UpdateTabTitle | electron/renderer/main.js:54-57 | retitles the first tab with that id only; an unknown id changes nothing |
| Session.TabSession.DragStart | electron/renderer/tabs.js:76 | remembers the dragged tab id |
| Session.TabSession.Drop | electron/renderer/tabs.js:78-90 | the tabs become the drop's result and the session is saved exactly when a tab moved; the drag source is always reset |
| Session.TabSession.CloseTab | electron/renderer/main.js:59-70 | removes the tab; a closed active tab passes activity to the first remaining tab; the active note is reloaded and the close reported |
| Session.TabSession.CloseAll | electron/renderer/tabs.js:45 | closing each member of a stack removes all of them, keeps an unrelated active tab, and reports one close per member in order |
| Session.TabSession.FocusNote | electron/renderer/main.js:116-123 | an open note becomes active and is reloaded; any other id changes nothing |
| Session.TabSession.OpenNote | electron/renderer/main.js:196-206 | a note focused elsewhere changes nothing; a failed fetch sets the status "Open failed: ..."; otherwise the tab is registered, opened and reported |
| Session.TabSession.RenderTabs | electron/renderer/tabs.js:6-58 | one display item per stack bucket, in bucket order, each as described by the bucket rule |
| Editor.Latest | electron/renderer/editor.js:19-22 | the newest stored snapshot of the note, present exactly when the stored list is non-empty |
| Editor.InitialText | electron/renderer/editor.js:23-30 | the textarea starts with the snapshot when a restore is offered and accepted, otherwise with the content or "" |
| Editor.DeclineKeepsContent | electron/renderer/editor.js:23-30 | declining shows the server content; a snapshot no newer than the note, or equal to its content, never replaces it |
| Editor.FindMatch | electron/renderer/editor.js:165-177 | an empty query finds nothing; a forward hit is the first case-insensitive match at or after the clamped start, a backward hit the last at or before it, and a miss means none exists there |
| Editor.NextAtEndFindsNothing | electron/renderer/editor.js:165-171 | with the caret at the end of the text, as a render leaves it, a forward find selects nothing whatever the query |
| Editor.EditorState.constructor | electron/renderer/editor.js:4-6 | no views, empty title, edit counter 0, no timers, no requests, no effects |
| Editor.EditorState.Render | electron/renderer/editor.js:8-31 | a new textarea holds the recovered or stored text with the caret at its end, the shared title input takes the note's title, and pending timers and requests are kept |
| Editor.EditorState.Edit | electron/renderer/editor.js:40-44 | the text of the view on screen changes, the selection is where the browser left it, the module-wide counter goes up, every 50th edit pushes a snapshot, and the one content timer is restarted for this view |
| Editor.EditorState.ContentTimerFire | electron/renderer/editor.js:44-46 | a snapshot of the view's current text is pushed, then `update` is sent with that text and no title |
| Editor.EditorState.TitleEdit | electron/renderer/editor.js:35-38 | the shared title changes and the title timer of the view on screen is (re)started |
| Editor.EditorState.TitleTimerFire | electron/renderer/editor.js:37 | `update` is sent with the current shared title and a null content for that view's note |
| Editor.EditorState.CtrlS | electron/renderer/editor.js:55-60 | every view ever rendered sends `update` with the shared title and its own text, one request each in render order, and each request stays outstanding for its view |
| Editor.ManualPendingAt | electron/renderer/editor.js:55-60 | the i-th request Ctrl+S leaves outstanding is the manual save of the i-th view |
| Editor.EditorState.Resolve | electron/renderer/editor.js:37-50 | the reply leaves the in-flight list and causes exactly the effects of its kind: status on failure, tab retitle and index patch on success, and for a title save an index patch either way |
| Editor.EditorState.Find | electron/renderer/editor.js:165-177 | a hit selects the match starting at `selectionStart` forward or one before it backward; a miss leaves the selection |
| Editor.ContentReply | electron/renderer/editor.js:46-49 | a failed content save reports "Autosave failed" and neither retitles nor patches the index; a successful one does both for its own note |
| Editor.CtrlSOverwritesEarlierTitle | electron/renderer/editor.js:13-60 | with views for two notes, Ctrl+S sends the title on screen to both, so the earlier note gets the later note's title |
| Layout.SidebarWidth | electron/renderer/main.js:189 | the sidebar width is at least 180, at most max(180, min(half the window, 500)), and equals the mouse position inside that range |
| Layout.MinihubWidth | electron/renderer/main.js:190 | the mini hub width is at least 220, at most max(220, min(half the window, 560)), and equals the distance from the right edge inside that range |
| Layout.WidthsMonotone | electron/renderer/main.js:189-190 | moving the mouse right never narrows the sidebar and never widens the mini hub |
| LegacyApp.TabIndex | electron/renderer/app.js:122 | the index of the first tab with the id, or -1 exactly when no tab has it |
| LegacyApp.FirstId | electron/renderer/app.js:124 | the first tab's id, or null when there is no tab or its id is empty |
| LegacyApp.InitialText | electron/renderer/app.js:147-157 | the textarea starts with the latest stored string when it is non-empty, differs from the content and the restore is accepted; otherwise with the content or "" |
| LegacyApp.RestoreIgnoresTime | electron/renderer/app.js:152 | a snapshot older than the saved note is still offered here, where the newer editor would not offer it |
| LegacyApp.ForwardSkipsCursor | electron/renderer/app.js:214-226 | a forward hit of the older search never begins at the cursor |
| LegacyApp.ForwardAtCursor | electron/renderer/editor.js:165-177 | a case-insensitive match that begins at the cursor is the newer editor's forward hit |
| LegacyApp.FindDifference | electron/renderer/app.js:214-226 | backward search starts where the newer editor's does, but a forward search here never selects a match that begins at the cursor |
| LegacyApp.RemoveKeepsDistinct | electron/renderer/app.js:122-123 | removing one tab keeps tab ids distinct and drops exactly that id |
| LegacyApp.LegacyApp.constructor | electron/renderer/app.js:1-9 | no tabs, nothing active, no in-memory snapshots, no views or timers |
| LegacyApp.LegacyApp.RenderEditor | electron/renderer/app.js:142-158 | a new textarea holds the recovered or stored text with the caret at its end; nothing else changes |
| LegacyApp.LegacyApp.OpenNote | electron/renderer/app.js:107-114 | single-open check: a known id only becomes active; for a new id only the fetch is requested |
| LegacyApp.LegacyApp.OpenReply | electron/renderer/app.js:114-118 | a failed fetch changes nothing; a fetched note is appended with its title without a second check, made active and rendered |
| LegacyApp.DoubleOpen | electron/renderer/app.js:107-118 | two opens of one note before the first reply leave two tabs for it |
| LegacyApp.LegacyApp.CloseTab | electron/renderer/app.js:121-128 | the first tab with the id is removed (every tab with it when ids are distinct); a closed active tab passes activity to the first remaining one; the active note is fetched for the editor, or the editor is cleared |
| LegacyApp.LegacyApp.Edit | electron/renderer/app.js:161-163 | the text on screen changes, the selection is where the browser left it, and that view's own timer restarts |
| LegacyApp.LegacyApp.TimerFire | electron/renderer/app.js:163-169 | the text is appended to the note's untrimmed in-memory snapshot list, the whole list is written to storage when it can be, and `update` is sent |
| LegacyApp.LegacyApp.Resolve | electron/renderer/app.js:171-172 | the reply's title goes to the first tab of that note, if any; the tab ids do not change |
| LegacyApp.LegacyApp.FindInNote | electron/renderer/app.js:214-226 | a hit selects the case-insensitive match from one after the cursor forward or one before it backward; a miss leaves the selection |
| GroupsView.Counts | electron/renderer/groups.js:10-14 | one count per group id: the length of its membership list (none counts as empty), or 0 when the fetch failed |
| GroupsView.Grouped | electron/renderer/groups.js:55-59 | an id is grouped exactly when some group's successful membership answer lists it |
| GroupsView.Dedup | electron/renderer/groups.js:49 | the note ids as a set in first-appearance order: distinct, and the same members |
| GroupsView.Filter | electron/renderer/groups.js:60 | the ids not in the grouped set, in order, distinct when the input is |
| GroupsView.FreeNotes | electron/renderer/groups.js:49-60 | the membership loop yields exactly the distinct note ids that no successful answer lists |
| GroupsView.FreeExact | electron/renderer/groups.js:49-62 | a note is free exactly when it is listed and no successful membership answer names it, and it appears once |
| GroupsView.FirstColon | electron/renderer/groups.js:41 | the position of the first ':' from `k`, or -1 when there is none |
| GroupsView.NoteDataRoundTrip | electron/renderer/groups.js:39-41 | a note id without ':' dragged as `note:<id>` is read back as that id |
| GroupsView.GroupIndex | electron/renderer/groups.js:26-27 | the index of the first group with the id, or -1 when there is none |
| GroupsView.DropOrder | electron/renderer/groups.js:26-30 | the dragged group moves to the target's index when both are found and differ; otherwise the order is unchanged; always a permutation |
| GroupsView.GroupsPanel.constructor | electron/renderer/groups.js:4 | the panel starts with the given groups and no drag source |
| GroupsView.GroupsPanel.DragStart | electron/renderer/groups.js:22 | remembers the dragged group id and changes nothing else |
| GroupsView.GroupsPanel.Drop | electron/renderer/groups.js:24-45 | both drop listeners run: the order becomes the drop order and the reorder request is sent when it moved, then a dragged note is added to the target group; the drag source is not cleared |
| GroupsView.GroupsPanel.AddGroup | electron/renderer/groups.js:70-76 | a name blank after trimming does nothing; otherwise the trimmed name is created and the input cleared |
| GroupsView.StaleDragReordersOnNoteDrop | electron/renderer/groups.js:4-44 | after dragging group a, dropping a note on group c also moves a: `[a, b, c]` becomes `[b, c, a]` and the reorder is sent |
| GroupsView.DropOrderNoteAware | electron/renderer/groups.js:24-34 | a drop carrying a note leaves the order unchanged; a group drop gives the drop order; always a permutation |
| GroupsView.NoteAwareDropKeepsOrder | electron/renderer/groups.js:24-44 | with the note-aware listener, a note drop keeps the order whatever was dragged before, and a group drop moves the dragged group to the target's index |
| Chunking.Next | lite/src/storage/indexing.py:16-19 | the next start is `j - overlap` when that moves forward, otherwise `j`; it always moves forward, and never past `j` for a non-negative overlap |
| Chunking.Spans | lite/src/storage/indexing.py:12-19 | the loop visits no span from the end of the text on; each span has at most `chunk_size` characters, ends at `min(L, i + chunk_size)` and lies in the text |
| Chunking.ChunkTextSpec | lite/src/storage/indexing.py:6-20 | a non-positive chunk size gives the whole text as one chunk; an empty text gives none; otherwise each chunk has between 1 and `chunk_size` characters |
| Chunking.ChunkText | lite/src/storage/indexing.py:6-20 | the loop returns exactly the slices of the visited spans |
| Chunking.LastEndsAtLen | lite/src/storage/indexing.py:12-19 | with a non-negative overlap the last chunk ends at the end of the text |
| Chunking.SpansStep | lite/src/storage/indexing.py:16-19 | each chunk after the first starts where the advance rule puts it |
| Chunking.StartsIncrease | lite/src/storage/indexing.py:16-19 | successive chunks start strictly later, so the loop terminates and no start repeats |
| Chunking.Covers | lite/src/storage/indexing.py:12-19 | with a non-negative overlap every character of the text lies in some chunk |
| Chunking.NoOverlapPartition | lite/src/storage/indexing.py:12-19 | with overlap 0 the chunks joined together give the text back |
| Chunking.PySliceRules | lite/src/app.py:49 | Python's slice rules: a stop past the end is cut to the length, a negative stop counts from the end, and a stop not after the start gives "" |
| Chunking.AdvancesIff | lite/src/app.py:47-52 | a pass inside the text moves `i` forward exactly when `chunk > 0` or `overlap < chunk`; otherwise the loop never ends |
| Chunking.Cuts | lite/src/app.py:47-52 | the passes of the loop start at `i`, inside the text, and each stops at `min(len(raw), i + chunk)` |
| Chunking.CutsArePositiveSpans | lite/src/app.py:47-52 | with a positive chunk size the endpoint visits exactly the spans of `chunk_text` |
| Chunking.BackwardCuts | lite/src/app.py:47-52 | with `overlap < chunk <= 0` each pass stops at `i + chunk`, never after its start, the next pass starts `chunk - overlap` later, and the loop stops at the first start at or past the end |
| Chunking.Ingest | lite/src/app.py:42-55 | for every `chunk` and `overlap` for which the loop ends, one record per pass with id `filename#i-j` (a negative `j` printed with its sign), the Python slice `raw[i:j]` and the source; with a positive chunk size these are the spans of `chunk_text` and their plain slices; documents are stored only when there is at least one, and the count is returned |
| Chunking.ZeroChunkRecords | lite/src/app.py:47-52 | `chunk = 0, overlap = -1` over "ab" stores `f#0-0` and `f#1-1`, both empty |
| Chunking.NegativeChunkRecords | lite/src/app.py:47-52 | `chunk = -1, overlap = -3` over "ab" stores one record `f#0--1` holding "a" |
| Chunking.ChunkIdsDistinct | lite/src/app.py:50 | two chunk ids of one file are equal only when they have the same start offset |
| Headings.Group | backend/app/services/import_service.py:23-36 | no lines give no chunks, and every chunk holds at least one line |
| Headings.GroupPartitions | backend/app/services/import_service.py:28-35 | the chunks partition the lines: joined in order they give the lines back |
| Headings.LaterChunksStartAtHeadings | backend/app/services/import_service.py:29 | every chunk after the first begins with a '#' line, and the first begins with the first line |
| Headings.HeadingsOpenChunks | backend/app/services/import_service.py:29-33 | no chunk holds a '#' line after its first line, so every heading line after the document's first line opens a chunk |
| Headings.ChunkPositions | backend/app/services/import_service.py:26-35 | the first chunk starts at 0, each later one at the previous end plus one, and the last ends at the line count |
| Headings.SplitByHeading | backend/app/services/import_service.py:23-36 | the loop reports exactly the chunks of the heading grouping of `splitlines()` |
| Headings.GroupSize | backend/app/services/import_service.py:24-35 | the chunks together hold every line |
| Links.LazyEnd | backend/app/tasks.py:58 | the lazy capture ends at the first `]]` reachable without a newline, or nowhere |
| Links.Links | backend/app/tasks.py:56-58 | every capture is non-empty and has no newline; text without `[[` has no links |
| Links.LinkThenRest | backend/app/tasks.py:58 | a link followed by anything is read as that link, then the links of the rest (matches do not overlap) |
| Links.WikiRoundTrip | backend/app/tasks.py:58 | names without newline or ']' written as `[[name]]` one after another are read back in order |
| Files.SidePathsDiffer | lite/src/storage/parquet_util.py:34-35 | the file, its `.tmp` and its `.bak` are three different paths |
| Files.Disk.constructor | lite/src/storage/parquet_util.py:29-52 | the disk starts with the given files |
| Files.Disk.Write | lite/src/storage/parquet_util.py:37 | writing a file creates it or replaces its content, and changes no other file |
| Files.Disk.Remove | lite/src/storage/parquet_util.py:43 | `os.remove` deletes that file only |
| Files.Disk.Rename | lite/src/storage/parquet_util.py:47-50 | `os.replace` gives the target the source's content and removes the source |
| Files.Disk.AtomicWrite | lite/src/storage/parquet_util.py:29-52 | the tmp/`.bak` protocol shared with `_atomic_write` of lite/src/storage/config.py: afterwards the path holds the new value, `.bak` the previous content when there was one (otherwise what it held before), `.tmp` is gone, and no other file changed |
| Parquet.TablePath | lite/src/storage/parquet_util.py:72-73 | the table path is the meta directory, '/', the name and `.parquet` |
| Parquet.TablePathInjective | lite/src/storage/parquet_util.py:72-73 | different table names give different paths |
| Parquet.ReadSafe | lite/src/storage/parquet_util.py:59-69 | a missing file reads as the empty frame, a readable one as its frame; an unreadable one falls back to a readable `.bak`, and otherwise the read fails |
| Parquet.ReadAfterWrite | lite/src/storage/parquet_util.py:29-69 | a frame written by the atomic replace is read back |
| Parquet.ReadFallsBackToPrevious | lite/src/storage/parquet_util.py:40-68 | if a table just replaced becomes unreadable, the read returns the frame it replaced |
| Parquet.Repair | lite/src/storage/parquet_util.py:76-102 | a missing table is restored from any `.bak`; an unreadable table, or one lacking a required column, is replaced by a healthy `.bak`; in every other case nothing changes |
| Parquet.RepairRestores | lite/src/storage/parquet_util.py:87-100 | after a repair from a healthy backup the table is healthy and reads as the backup |
| Config.Merge | lite/src/storage/config.py:39-40 | the defaults overlaid by the data: the data's keys win, every default key stays |
| Config.Read | lite/src/storage/config.py:35-43 | a settings file holding an object gives it merged over the defaults; a falsy document, any other value or an unreadable file gives the defaults |
| Config.MergeIdempotent | lite/src/storage/config.py:93-94 | merging twice equals merging once |
| Config.LoadAfterSave | lite/src/storage/config.py:30-96 | loading after a save returns the saved, merged settings |
| Config.SaveSettings | lite/src/storage/config.py:91-96 | the merged settings are written with the atomic write and returned |
| Config.LoadSettings | lite/src/storage/config.py:30-43 | with no settings file the defaults are written and returned; otherwise the file is read without writing anything |
| NotesStore.ReadText | lite/src/storage/notes.py:144-149 | a missing note file reads as the empty text; an existing one gives its content, and an unreadable one fails |
| NotesStore.FirstNonBlank | lite/src/storage/notes.py:21-23 | the index of the first line that is not blank after stripping, every line before it being blank |
| NotesStore.LineTitle | lite/src/storage/notes.py:22-24 | a non-blank line gives its stripped text cut to 120 characters: non-empty, not starting with white space, made of the line's characters |
| NotesStore.NormalizeTitle | lite/src/storage/notes.py:17-25 | a title with non-blank text is stripped; otherwise the first non-blank line of the content is used, cut to 120 characters, and "Untitled" when there is none; the result is never empty and a derived one holds no line break |
| NotesStore.NormalizedTitleIsStable | lite/src/storage/notes.py:17-19 | a given title, once normalized, is left as it is by every later normalization, whatever the content |
| NotesStore.DerivedTitleShrinks | lite/src/storage/notes.py:17-24 | a derived title whose 120-character cut ends in white space is stripped again, and so shortened, by the next normalization |
| NotesStore.ListNotes | lite/src/storage/notes.py:32-36 | the listed notes are a permutation of the stored rows, newest update first; a failed read fails |
| NotesStore.CreateNote | lite/src/storage/notes.py:55-73 | the content is written to the note's text file; the row with the normalized title and both timestamps equal to now is appended to the notes table and returned; a failed read leaves the table alone |
| NotesStore.CreatedNoteListed | lite/src/storage/notes.py:32-73 | a created note appears in the listing and its text reads back as the content written |
| NotesStore.FindRow | lite/src/storage/notes.py:78 | the index of the first row with the id, or the length when there is none |
| NotesStore.NewTitle | lite/src/storage/notes.py:94-98 | an explicit title is taken as given; otherwise the stored title is normalized against the note's text |
| NotesStore.CleanTitleKept | lite/src/storage/notes.py:96-98 | a stored title without surrounding white space survives an update that gives no title |
| NotesStore.Touched | lite/src/storage/notes.py:94-99 | rows with the id get the new title and the update time; ids and creation times are unchanged, and every other row is untouched |
| NotesStore.UpdateNote | lite/src/storage/notes.py:76-101 | with no table file the `id` lookup raises `KeyError`; an unknown id fails with "Note not found"; both change nothing; new content is written to the text file; the row gets its new title and update time, the table is replaced, and the updated row is returned |
| NotesStore.DeleteNote | lite/src/storage/notes.py:104-120 | the text file is gone; the notes table and the group-membership table lose the note's rows, each rewritten only when it was non-empty; the result is true |
| NotesStore.FindIffContains | lite/src/storage/notes.py:150 | `find` gives a non-negative index exactly when the text contains the query |
| NotesStore.NewlinesToSpaces | lite/src/storage/notes.py:154 | every newline becomes a space and every other character stays |
| NotesStore.Snippet | lite/src/storage/notes.py:152-154 | the text from 40 characters before the match to 160 after it, clipped to the content, with newlines as spaces: at most 200 characters and no newline |
| NotesStore.HitFor | lite/src/storage/notes.py:150-155 | a row yields a hit exactly when its lower-cased text or title contains the query, with the row's id and title |
| NotesStore.Hits | lite/src/storage/notes.py:140-156 | never more hits than rows |
| NotesStore.HitsExact | lite/src/storage/notes.py:140-156 | on success every row's text was readable, every hit comes from a row, and every row that matches yields its hit |
| NotesStore.HitsFailEarly | lite/src/storage/notes.py:145-149 | a row whose text cannot be read ends the search with that failure |
| NotesStore.Selected | lite/src/storage/notes.py:138-139 | with a non-empty list of ids only the rows with those ids are kept; otherwise every row |
| NotesStore.SearchKeyword | lite/src/storage/notes.py:130-156 | a query blank after lower-casing and stripping finds nothing; otherwise the hits are those of the selected rows, in table order |
| NotesStore.CollectHits | lite/src/storage/notes.py:141-156 | the loop gives exactly the hits of the rows, or the first read failure |
| GroupsStore.StrLeTotal | lite/src/storage/groups.py:25 | string order is total, as the sort on names needs |
| GroupsStore.StrLeTrans | lite/src/storage/groups.py:25 | string order is transitive |
| GroupsStore.ByPositionNameOrders | lite/src/storage/groups.py:25 | ordering by position and then name is a total preorder |
| GroupsStore.Ordered | lite/src/storage/groups.py:25 | the rows are permuted into position-then-name order |
| GroupsStore.ListGroups | lite/src/storage/groups.py:18-28 | the groups' ids and names, in position-then-name order; a failed read fails |
| GroupsStore.LastHighest | lite/src/storage/groups.py:25 | in rows sorted by position then name, no row has a higher position than the last one |
| GroupsStore.HighestPositionListedLast | lite/src/storage/groups.py:25-48 | a row with a position above every other row is listed last |
| GroupsStore.SameName | lite/src/storage/groups.py:37-40 | the first row whose name equals the given name ignoring case, and no such row before it |
| GroupsStore.MaxPosition | lite/src/storage/groups.py:48 | the largest position among the rows, attained by one of them |
| GroupsStore.NextPosition | lite/src/storage/groups.py:48 | above every existing position, one more than the largest, and 0 for an empty table |
| GroupsStore.NewGroupListedLast | lite/src/storage/groups.py:18-52 | a newly created group comes last in the listing |
| GroupsStore.CreateGroup | lite/src/storage/groups.py:31-52 | a name blank after stripping fails with "Group name required"; an existing name, ignoring case, returns that group and writes nothing; otherwise the stripped name is appended at the next position and returned |
| GroupsStore.Renamed | lite/src/storage/groups.py:65-68 | rows of the group get the new name and the update time; ids, positions and creation times stay, and other rows are untouched |
| GroupsStore.RenameGroup | lite/src/storage/groups.py:55-70 | an empty table fails with "No groups" and an unknown id with "Group not found", changing nothing; otherwise the table is rewritten with the group renamed |
| GroupsStore.DeleteGroup | lite/src/storage/groups.py:73-85 | the group's row and its memberships are removed, each table rewritten only when non-empty; the result is true |
| GroupsStore.DeleteGroupRemovesAll | lite/src/storage/groups.py:79-83 | after the delete no row or membership names the group and every other one is kept |
| GroupsStore.MaxInGroup | lite/src/storage/groups.py:103 | the largest position among the group's memberships, attained by one of them |
| GroupsStore.NextInGroup | lite/src/storage/groups.py:103 | above every position in the group, and 0 for a group with no notes |
| GroupsStore.Added | lite/src/storage/groups.py:99-105 | the pair is present afterwards; an existing pair changes nothing, a new one is appended after the unchanged rows |
| GroupsStore.AddIdempotent | lite/src/storage/groups.py:99-102 | adding the same note to the same group twice is the same as adding it once |
| GroupsStore.AddNoteToGroup | lite/src/storage/groups.py:95-107 | an existing pair writes nothing; a new pair is appended and the table replaced; the result is true |
| GroupsStore.RemoveNoteFromGroup | lite/src/storage/groups.py:110-116 | an empty table is left alone; otherwise the table is rewritten without the pair; the result is true |
| GroupsStore.RemoveOnlyPair | lite/src/storage/groups.py:114 | the pair is gone and every other membership is kept |
| GroupsStore.RemoveUndoesAdd | lite/src/storage/groups.py:95-116 | removing a pair that was just added restores the previous rows |
| GroupsStore.PosMap | lite/src/storage/groups.py:134-151 | each id maps to the index of its last occurrence in the list, as a dictionary built from the list does |
| GroupsStore.Reordered | lite/src/storage/groups.py:134-140 | a listed group gets the index of its id and a fresh update time; unlisted groups are untouched; ids and names never change |
| GroupsStore.ReorderedIndex | lite/src/storage/groups.py:134-138 | with distinct ids, a listed group's new position is its index in the list |
| GroupsStore.ReorderGroups | lite/src/storage/groups.py:126-142 | an empty table is left alone; otherwise the repositioned rows replace the table; the result is true |
| GroupsStore.ReorderedMembers | lite/src/storage/groups.py:151-156 | a membership of the group whose note is listed gets the note's index; every other row is untouched |
| GroupsStore.ReorderGroupNotes | lite/src/storage/groups.py:145-158 | an empty table is left alone; otherwise the repositioned memberships replace the table; the result is true |
| TabsStore.NewRows | lite/src/storage/tabs.py:28-38 | one row per tab in order: a falsy tab id replaced by a fresh one, a falsy stack id stored as None, a missing position defaulting to the index |
| TabsStore.SaveSession | lite/src/storage/tabs.py:17-42 | the session's old rows are dropped, other sessions' rows stay in place, the new rows are appended, the table is replaced, and the count of tabs is returned |
| TabsStore.SaveKeepsOtherSessions | lite/src/storage/tabs.py:26-40 | a save keeps every row of other sessions, and this session's rows are only the new ones |
| TabsStore.ByPositionOrders | lite/src/storage/tabs.py:52 | ordering by position is a total preorder |
| TabsStore.SameSession | lite/src/storage/tabs.py:50-52 | sorting keeps the rows within the session |
| TabsStore.LoadSession | lite/src/storage/tabs.py:45-54 | the session's rows, permuted into position order; a failed read fails |
| TabsStore.UnknownSessionIsEmpty | lite/src/storage/tabs.py:47-51 | a session that was never saved loads as no tabs |
| TabsStore.SaveThenLoad | lite/src/storage/tabs.py:17-54 | when positions are absent or equal to the index, loading after a save gives back the saved rows in order |
| TabsStore.RowsAtTheirIndex | lite/src/storage/tabs.py:52 | rows whose positions are their indices are already in load order |
| TabsStore.OnlyNewRowsInSession | lite/src/storage/tabs.py:22-38 | after a save the session's rows are exactly the new ones |
| TabsStore.FromPersisted | electron/renderer/state.js:21-24 | the records the renderer persists carry no tab id, the note, the stack and the index as position |
| TabsStore.RendererTabsRoundTrip | electron/renderer/state.js:21-24 | the renderer's tab strip survives a save and a load: the tabs' notes in strip order, with their stacks |
| Sql.Piece | src/Infrastructure/Repositories/BaseRepository.cs:47-49 | the text one character contributes holds no upper-case letter |
| Sql.SnakePrefix | src/Infrastructure/Repositories/BaseRepository.cs:45-50 | the text built from the first characters is at least that long and holds no upper-case letter |
| Sql.SnakeLength | src/Infrastructure/Repositories/BaseRepository.cs:45-50 | the text built is one character per input character plus one underscore per upper-case letter after the first position |
| Sql.ToSnakeCase | src/Infrastructure/Repositories/BaseRepository.cs:41-52 | the empty name is returned as it is; otherwise the result has an underscore before every inner capital, is all lower case, and has the length that implies |
| Sql.SnakeLast | src/Infrastructure/Repositories/BaseRepository.cs:49 | the last character written is the lower-cased last input character |
| Sql.UnsnakeUpper | src/Infrastructure/Repositories/BaseRepository.cs:48-49 | an underscore followed by a lower-cased letter decodes to the capital |
| Sql.UnsnakePlain | src/Infrastructure/Repositories/BaseRepository.cs:49 | a character not after an underscore decodes to itself |
| Sql.SnakeRoundTrip | src/Infrastructure/Repositories/BaseRepository.cs:41-52 | for names without underscores, the snake-case name decodes back to the name with its first letter lower-cased |
| Sql.SnakeInjective | src/Infrastructure/Repositories/BaseRepository.cs:41-52 | two names without underscores, capitalised alike, that map to the same column name are the same name |
| Sql.LowerFirstInjective | src/Infrastructure/Repositories/BaseRepository.cs:49 | lower-casing only the first letter keeps names apart when they are capitalised alike |
| Sql.Written | src/Infrastructure/Repositories/BaseRepository.cs:31-33 | exactly the properties other than Id |
| Sql.Columns | src/Infrastructure/Repositories/BaseRepository.cs:34 | each property's snake-case column name, in order |
| Sql.Parameters | src/Infrastructure/Repositories/BaseRepository.cs:35 | each property's parameter name, an at sign before it, in order |
| Sql.Assignments | src/Infrastructure/Repositories/BaseRepository.cs:37 | each column set from its own parameter, in order |
| Sql.RepositorySql | src/Infrastructure/Repositories/BaseRepository.cs:24-39 | the insert lists every property but `Id` as its snake-case column and its `@` parameter in the same order and returns the new row id; the update sets each such column from its parameter; select-all reads the table; select-by-id and delete address the row whose `id` is `@Id` |
| Sql.ColumnsDistinctWithoutId | src/Infrastructure/Repositories/BaseRepository.cs:31-37 | with distinct capitalised property names, the written columns are distinct and never the id column |
| Sql.WrittenDistinct | src/Infrastructure/Repositories/BaseRepository.cs:31-33 | dropping Id keeps distinct properties distinct |
| Sql.Filters | src/Infrastructure/QueryBuilders/EntryQueryBuilder.cs:21-46 | the k-th tag gives a LIKE condition on the placeholder tag followed by k, bound to the tag wrapped in percent signs, ahead of the other filters |
| Sql.Build | src/Infrastructure/QueryBuilders/EntryQueryBuilder.cs:16-54 | the query is the select with the conditions joined by AND, and the parameters bound beside them |
| Sql.WhereIffFilter | src/Infrastructure/QueryBuilders/EntryQueryBuilder.cs:21-51 | the query has a WHERE clause exactly when a tag, a bound or a non-empty text is given |
| Sql.PlaceholdersBound | src/Infrastructure/QueryBuilders/EntryQueryBuilder.cs:26-45 | every condition ends with the placeholder of the parameter bound beside it |
| Sql.ParameterNamesDistinct | src/Infrastructure/QueryBuilders/EntryQueryBuilder.cs:26-45 | no two parameters share a name |
| Sql.ParseBool | src/Infrastructure/Repositories/BoolIntHandler.cs:8 | a value outside the 32-bit range fails; otherwise true exactly when the value is 1 |
| Sql.EncodeBool | src/Infrastructure/Repositories/BoolIntHandler.cs:12 | a boolean is stored as 0 or 1 |
| Sql.DbParameter.constructor | src/Infrastructure/Repositories/BoolIntHandler.cs:10 | a new parameter holds no value |
| Sql.SetValue | src/Infrastructure/Repositories/BoolIntHandler.cs:10-13 | the parameter holds the boolean's 0 or 1 |
| Sql.BoolRoundTrip | src/Infrastructure/Repositories/BoolIntHandler.cs:8-13 | a stored boolean reads back as itself |
| Sql.IntRoundTrip | src/Infrastructure/Repositories/BoolIntHandler.cs:8-13 | an integer survives a read and a write exactly when it is 0 or 1 |
| Uow.DbSession.constructor | backend/app/services/base.py:15-16 | a new session has received no calls |
| Uow.DbSession.Call | backend/app/services/base.py:28-32 | a call on the session is appended to its log |
| Uow.MergeCalls | backend/app/services/base.py:29-30 | one merge per dirty object, in order |
| Uow.FlushCalls | backend/app/services/base.py:26-34 | a commit is sent exactly when either queue is non-empty, and last; add_all only with the whole non-empty new list; every dirty object is merged; empty queues send nothing |
| Uow.UnitOfWork.constructor | backend/app/services/base.py:15-18 | both queues start empty on the given session |
| Uow.UnitOfWork.Add | backend/app/services/base.py:20-21 | the object is queued for insertion and the update queue is untouched |
| Uow.UnitOfWork.Update | backend/app/services/base.py:23-24 | the object is queued for update and the insert queue is untouched |
| Uow.UnitOfWork.Flush | backend/app/services/base.py:26-34 | the session receives the flush calls for the queues, and both queues are emptied |
| Uow.UnitOfWork.Perform | backend/app/services/base.py:20-34 | one step of a handler moves the state as the step's definition says |
| Uow.Replay | backend/app/services/base.py:26-34 | after a final flush both queues are empty |
| Uow.GetUow | backend/app/services/base.py:37-43 | a fresh unit of work on the session; the session and the queues end as the handler's steps, followed by a flush unless the handler raised, leave them |
| Uow.AddedTracked | backend/app/services/base.py:20-34 | every object added is still queued or was passed to add_all |
| Uow.UpdatedTracked | backend/app/services/base.py:23-34 | every object updated is still queued or was merged |
| Uow.RequestWritesAll | backend/app/services/base.py:37-43 | a request that returns leaves nothing queued: every added object was passed to add_all and every updated one merged |
| Uow.NothingQueuedNoCalls | backend/app/services/base.py:27-43 | a request that queues nothing makes no call at all, not even a commit |
| Uow.QuietSteps | backend/app/services/base.py:26-34 | flushes with nothing queued leave the session and queues as they were |
| Uow.RaisedSendsNothing | backend/app/services/base.py:37-43 | a handler that raises before flushing sends nothing, and its work stays in the abandoned queues |
| FileCache.Loaded | backend/app/utils/cache.py:10-16 | a file holding a JSON object gives that dictionary; a missing or invalid file gives the empty one |
| FileCache.Cache.constructor | backend/app/utils/cache.py:8-16 | the cache holds what the file holds, and is in step with it |
| FileCache.Cache.Get | backend/app/utils/cache.py:18-19 | the stored value when the key is present, None otherwise |
| FileCache.Cache.Set | backend/app/utils/cache.py:21-23 | the key maps to the value, every other key reads as before, and the file holds the whole dictionary |
| FileCache.ReopenAfterSet | backend/app/utils/cache.py:8-23 | opening the file a set has just written gives back the dictionary, with the new value |
| Strings.Trim | lite/src/storage/notes.py:18-22 | the stripped text is empty exactly when the text is all white space, and otherwise starts and ends with a non-space |
| Strings.TrimSlice | lite/src/storage/notes.py:18-22 | the stripped text is one contiguous piece of the text, and only white space is cut from either end |
| Strings.LowerStr | lite/src/storage/notes.py:132 | each character is lower-cased in place, the length unchanged |
| Strings.SplitLines | lite/src/storage/notes.py:21 | the empty text has no lines, any other text has some, and no line holds a line break |
| Strings.FirstMatchFrom | electron/renderer/editor.js:171 | the first index at or after the start where the needle occurs, or -1 when there is none |
| Strings.LastMatchUpTo | electron/renderer/editor.js:171 | the last index at or before the start where the needle occurs, or -1 when there is none |
| Seqs.Where | lite/src/storage/notes.py:113 | the rows kept are exactly those the mask selects, never more than there were |
| Seqs.SortBy | lite/src/storage/notes.py:36 | the sorted rows are a permutation of the input |
| Seqs.SortBySorted | lite/src/storage/notes.py:36 | under a total preorder the result is sorted |
| Chunking.Slices | lite/src/storage/indexing.py:13-14 | one slice per span, each the text between the span's bounds |
| Headings.Chunks | backend/app/services/import_service.py:30-35 | one chunk per group of lines |

## Left out

- Network and IPC: the HTTP calls of `lite/src/app.py`, the Electron preload bridge and the main process are not modelled. Their replies are parameters, and the requests made are logged.
- Timers: `setTimeout`/`clearTimeout` become explicit timer-fire events. Nothing models how much time passes between them.
- DOM rendering: HTML, CSS and event wiring are left out. The tab strip's grouping rule and the values written to text areas and inputs are kept. The textarea selection is kept as the browser sets it: at the end of the text after a render, where the browser leaves it after an edit (a parameter of `Edit`), and at the match after a find.
- Vector store and language model: the Chroma collection, `embed_texts`, `reindex_note` and `CachedLLMService` with its `lru_cache` are not part of this model. The ingest endpoint's call to `add_documents` is logged with its arguments.
- Durability: `fsync` of files and directories is not modelled, and neither is a crash midway through the atomic replace. The `try/except: pass` around removing and rotating the `.bak` file is modelled as always succeeding.
- Serialisation: settings, snapshots and the cache are stored as structured values rather than JSON text. A file that fails to parse is a separate `Damaged`/`Invalid` state.
- Config.Read: a settings file holding a JSON list of key/value pairs is read as the defaults, although `dict.update` in `lite/src/storage/config.py` would merge those pairs.
- Snapshots.Load: stored JSON that is truthy but not an array (an object or a number) has no case of its own in `Stored`. For such a value `pushSnapshot` in `electron/renderer/state.js` throws at `arr.push` and stores nothing, which `SnapshotStore.PushSnapshot` does not capture.
- Character handling: lower-casing (`str.lower`, `toLowerCase`, `ToLowerInvariant`) and `char.IsUpper` are modelled on ASCII letters only. White space for `strip()`/`trim()` is the set of characters each language strips (Python's `str.isspace` characters, JavaScript's WhiteSpace and LineTerminator characters). There is no Unicode case folding. A character of the model is a Unicode scalar value, for Python and JavaScript alike. JavaScript's `length`, `slice`, `indexOf` and `selectionStart` count UTF-16 code units. So for text with characters outside the Basic Multilingual Plane (emoji, say), the keyword snippet's 120-character cut and its 40/80 window, and the find offsets of both editors, differ from the program's, and a JavaScript cut can split a surrogate pair, which the model cannot.
- Sorting: pandas `sort_values` (quicksort by default, not stable) and `Array.prototype.sort` are modelled by one stable insertion sort. Rows with equal keys may come out in another order in the original.
- Legacy schemas: the groups table with an `id` column instead of `group_id`, and tables lacking a `position` column, are not modelled. Every table has the current schema.
- Derived note titles: a title derived from the content is cut to 120 characters after stripping, and the cut can end in white space. An update that gives no title strips such a stored title again (`NotesStore.DerivedTitleShrinks`), so only a given title is stable (`NotesStore.NormalizedTitleIsStable`).
- Operations outside the core: `get_note`, `list_group_members`, `groups_for_note` and the duplicate `list_groups` in `lite/src/storage/notes.py` are not part of this model.
- Chunking.Ingest: requires `chunk > 0` or `overlap < chunk`, the parameters for which the endpoint's loop ends. With `chunk <= 0` and `overlap >= chunk` no pass moves `i` forward (`Chunking.AdvancesIff`), so the request never returns and there is no result to describe.
- Keyword.KeywordIndex.BuildIndex: states a rebuild that no other event interleaves with. The awaits themselves are the events `StartBuild` and `BuildReply`, between which searches and autosaves may run (`Keyword.SaveDuringRebuild`). The rebuild iterates the note array it began with, as `state.notes` is only ever reassigned.
- Sql.ParseBool: only integer-valued inputs to `Convert.ToInt32` are modelled (strings, null and other types are not). Values outside the 32-bit range are an error.
- Sql.Build: the tag list is assumed to contain no null elements.
- Sql.SnakeInjective: holds for names without underscores whose first letters are alike in case, the form C# property names take. Other names can collide.
- FileCache.Cache.constructor: the parent directory creation is not modelled. A file holding valid JSON that is not an object of strings is treated like invalid JSON.
- Uow.GetUow: the SQLAlchemy session is reduced to the log of calls made on it. Exceptions raised by `add_all`, `merge` or `commit` themselves are not modelled, only a handler that raises before the flush.
- Keyword.ScoreNote: the score is a `real`, so the floating-point rounding of JavaScript numbers is not modelled.

## Where the code is followed

Where the repository's own description of the behaviour and its code disagree, the model follows the code:

- Closing the active tab makes the first remaining tab active (`openTabs[0]`), not the neighbour of the closed tab.
- Closing a tab does not flush a pending autosave.
- The edit counter and the autosave timer are module-wide in `electron/renderer/editor.js`, so they are shared across notes.
- The keyword snippet without a hit gets an ellipsis only when the text is longer than 120 characters.

## Findings

| source | as written | input that shows it | evidently intended | confidence | as-written member | corrected member |
|---|---|---|---|---|---|---|
| electron/renderer/groups.js:4-44 | the group drop listener reorders by the module-level dragged group id, which is never cleared, so dropping a note on a group also moves the last group dragged | for any groups a, b, c with distinct ids and any note n: drag group a, then drag note n onto group c; the order `[a, b, c]` becomes `[b, c, a]` and the reorder is sent | a note drop adds the note to the group and leaves the group order alone | not executed | GroupsView.StaleDragReordersOnNoteDrop | GroupsView.NoteAwareDropKeepsOrder |
