/**
 * The saved tab sessions of the lite storage layer
 * (`lite/src/storage/tabs.py`): one `tabs` table holding the rows of every
 * session. Saving a session replaces that session's rows; loading returns
 * them ordered by position. `uuid4()` and the clock are parameters: `newId(k)`
 * is the id drawn for the `k`-th tab and `clock(k)` the time read for it.
 */
module TabsStore {
  import opened Wrappers
  import opened Seqs
  import opened Files
  import opened Parquet
  import Session

  datatype TabRow = TabRow(sessionId: string, tabId: string, noteId: string, stackId: Option<string>,
                           position: int, createdAt: int)

  /** A tab as the caller passes it: `{tab_id?, note_id, stack_id?, position?}`. */
  datatype TabIn = TabIn(tabId: Option<string>, noteId: string, stackId: Option<string>, position: Option<int>)

  const TabsTable: string := TablePath("tabs")

  function NotSession(session: string): TabRow -> bool { (t: TabRow) => t.sessionId != session }
  function InSession(session: string): TabRow -> bool { (t: TabRow) => t.sessionId == session }

  /** The row stored for the `k`-th tab passed. */
  function RowFor(session: string, t: TabIn, k: nat, newId: nat -> string, clock: nat -> int): TabRow {
    TabRow(session,
           if Truthy(t.tabId) then t.tabId.value else newId(k),
           t.noteId,
           if Truthy(t.stackId) then t.stackId else None,
           if t.position.Some? then t.position.value else k,
           clock(k))
  }

  /**
   * The rows `save_session` builds: one per tab, in order. A falsy tab id is
   * replaced by a fresh one, a falsy stack id is stored as None, and a missing
   * position defaults to the tab's index.
   */
  function NewRows(session: string, tabs: seq<TabIn>, newId: nat -> string, clock: nat -> int): (r: seq<TabRow>)
    ensures |r| == |tabs|
    ensures forall k :: 0 <= k < |tabs| ==>
      && r[k].sessionId == session && r[k].noteId == tabs[k].noteId
      && r[k].tabId == (if Truthy(tabs[k].tabId) then tabs[k].tabId.value else newId(k))
      && (r[k].stackId.None? <==> !Truthy(tabs[k].stackId))
      && (r[k].stackId.Some? ==> r[k].stackId == tabs[k].stackId)
      && r[k].position == (if tabs[k].position.Some? then tabs[k].position.value else k)
  {
    seq(|tabs|, k requires 0 <= k < |tabs| => RowFor(session, tabs[k], k, newId, clock))
  }

  /**
   * `save_session(session_id, tabs)`: the session's previous rows are dropped,
   * rows of other sessions are kept in place, the new rows are appended, the
   * table is replaced, and the count of tabs is returned.
   */
  method SaveSession(disk: Disk<seq<TabRow>>, session: string, tabs: seq<TabIn>,
                     newId: nat -> string, clock: nat -> int) returns (r: Result<nat, string>)
    modifies disk
    ensures var read := ReadSafe(old(disk.files), TabsTable, []);
      if read.Err? then r.Err? && disk.files == old(disk.files)
      else
        r == Ok(|tabs|)
        && AfterAtomicWrite(disk.files, old(disk.files), TabsTable,
                            Where(read.value, NotSession(session)) + NewRows(session, tabs, newId, clock))
  {
    var read := ReadSafe(disk.files, TabsTable, []);
    if read.Err? {
      return Err(read.error);
    }
    var kept := Where(read.value, NotSession(session));
    var rows: seq<TabRow> := [];
    var pos := 0;
    while pos < |tabs|
      invariant 0 <= pos <= |tabs| && |rows| == pos
      invariant forall k :: 0 <= k < pos ==> rows[k] == RowFor(session, tabs[k], k, newId, clock)
    {
      rows := rows + [RowFor(session, tabs[pos], pos, newId, clock)];
      pos := pos + 1;
    }
    assert rows == NewRows(session, tabs, newId, clock);
    disk.AtomicWrite(TabsTable, kept + rows);
    r := Ok(|rows|);
  }

  /** Saving leaves every row of the other sessions where it was, and only new rows for this one. */
  lemma SaveKeepsOtherSessions(rows: seq<TabRow>, session: string, tabs: seq<TabIn>, newId: nat -> string, clock: nat -> int)
    ensures var after := Where(rows, NotSession(session)) + NewRows(session, tabs, newId, clock);
      && (forall t :: t in rows && t.sessionId != session ==> t in after)
      && (forall t :: t in after && t.sessionId == session ==> t in NewRows(session, tabs, newId, clock))
  {
  }

  predicate ByPosition(a: TabRow, b: TabRow) { a.position <= b.position }

  lemma ByPositionOrders()
    ensures TotalPreorder(ByPosition)
  {
  }

  lemma SameSession(mine: seq<TabRow>, sorted: seq<TabRow>, session: string)
    requires forall t :: t in mine ==> t.sessionId == session
    requires multiset(sorted) == multiset(mine)
    ensures forall t :: t in sorted ==> t.sessionId == session
  {
    forall t | t in sorted ensures t.sessionId == session {
      assert t in multiset(mine);
    }
  }

  /**
   * `load_session(session_id)`: the session's rows, a permutation sorted by
   * position; an empty table or an unknown session gives no tabs.
   */
  function LoadSession(files: map<string, Stored<seq<TabRow>>>, session: string): (r: Result<seq<TabRow>, string>)
    ensures r.Err? <==> ReadSafe(files, TabsTable, []).Err?
    ensures r.Ok? ==> multiset(r.value) == multiset(Where(ReadSafe(files, TabsTable, []).value, InSession(session)))
    ensures r.Ok? ==> SortedBy(r.value, ByPosition)
    ensures r.Ok? ==> forall t :: t in r.value ==> t.sessionId == session
  {
    match ReadSafe(files, TabsTable, [])
    case Err(e) => Err(e)
    case Ok(rows) =>
      var mine := Where(rows, InSession(session));
      ByPositionOrders();
      SortBySorted(mine, ByPosition);
      var sorted := SortBy(mine, ByPosition);
      SameSession(mine, sorted, session);
      Ok(sorted)
  }

  /** A session that was never saved loads as no tabs. */
  lemma UnknownSessionIsEmpty(files: map<string, Stored<seq<TabRow>>>, session: string)
    requires ReadSafe(files, TabsTable, []).Ok?
    requires forall t :: t in ReadSafe(files, TabsTable, []).value ==> t.sessionId != session
    ensures LoadSession(files, session) == Ok([])
  {
    WhereNone(ReadSafe(files, TabsTable, []).value, InSession(session));
  }

  /**
   * Saving tabs whose positions are absent or equal to their index, then
   * loading the session, gives back the saved rows in the order they were passed.
   */
  lemma {:induction false} SaveThenLoad(before: map<string, Stored<seq<TabRow>>>, after: map<string, Stored<seq<TabRow>>>,
                                        rows: seq<TabRow>, session: string, tabs: seq<TabIn>,
                                        newId: nat -> string, clock: nat -> int)
    requires forall k :: 0 <= k < |tabs| ==> tabs[k].position.None? || tabs[k].position == Some(k)
    requires AfterAtomicWrite(after, before, TabsTable,
                              Where(rows, NotSession(session)) + NewRows(session, tabs, newId, clock))
    ensures LoadSession(after, session) == Ok(NewRows(session, tabs, newId, clock))
  {
    var kept := Where(rows, NotSession(session));
    var added := NewRows(session, tabs, newId, clock);
    ReadAfterWrite(after, before, TabsTable, kept + added, []);
    OnlyNewRowsInSession(kept, added, session);
    assert forall k :: 0 <= k < |added| ==> added[k].position == k;
    RowsAtTheirIndex(added);
  }

  /** Rows whose positions are their indices are already in load order. */
  lemma RowsAtTheirIndex(added: seq<TabRow>)
    requires forall k :: 0 <= k < |added| ==> added[k].position == k
    ensures SortBy(added, ByPosition) == added
  {
    assert SortedBy(added, ByPosition);
    SortByIdentity(added, ByPosition);
  }

  /** After a save, the session's rows are exactly the new ones. */
  lemma OnlyNewRowsInSession(kept: seq<TabRow>, added: seq<TabRow>, session: string)
    requires forall t :: t in kept ==> t.sessionId != session
    requires forall t :: t in added ==> t.sessionId == session
    ensures Where(kept + added, InSession(session)) == added
  {
    WhereConcat(kept, added, InSession(session));
    WhereNone(kept, InSession(session));
    WhereAll(added, InSession(session));
  }

  /** The records the renderer persists, as `save_session` receives them. */
  function FromPersisted(p: seq<Session.PersistedTab>): (r: seq<TabIn>)
    ensures |r| == |p|
    ensures forall i :: 0 <= i < |p| ==>
      r[i].tabId.None? && r[i].noteId == p[i].noteId && r[i].stackId == p[i].stackId && r[i].position == Some(p[i].position as int)
  {
    seq(|p|, i requires 0 <= i < |p| => TabIn(None, p[i].noteId, p[i].stackId, Some(p[i].position as int)))
  }

  /**
   * The renderer's tab strip survives a save and a load: the loaded rows
   * name the open tabs' notes in strip order, with their stacks.
   */
  lemma RendererTabsRoundTrip(tabs: seq<Session.Tab>, session: string,
                              before: map<string, Stored<seq<TabRow>>>, after: map<string, Stored<seq<TabRow>>>,
                              rows: seq<TabRow>, newId: nat -> string, clock: nat -> int)
    requires AfterAtomicWrite(after, before, TabsTable,
                              Where(rows, NotSession(session)) + NewRows(session, FromPersisted(Session.Persisted(tabs)), newId, clock))
    ensures LoadSession(after, session).Ok?
    ensures var got := LoadSession(after, session).value;
      |got| == |tabs|
      && forall i :: 0 <= i < |tabs| ==>
           got[i].noteId == tabs[i].id && got[i].position == i && got[i].stackId == Session.StackKey(tabs[i])
  {
    var p := Session.Persisted(tabs);
    SaveThenLoad(before, after, rows, session, FromPersisted(p), newId, clock);
  }
}
