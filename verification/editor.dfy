/**
 * The note editor of the renderer (`electron/renderer/editor.js`): snapshot
 * recovery when a note is rendered, the content autosave with its module-wide
 * debounce timer and edit counter, the debounced title channel, Ctrl+S, the
 * replies of the save requests, and the in-note find.
 *
 * Timers are events: `ContentTimerFire` and `TitleTimerFire` stand for the
 * expiry of the 500 ms and 400 ms timers, `Resolve` for the arrival of an
 * `update` reply. Requests and UI updates are appended to `effects`.
 */
module Editor {
  import opened Wrappers
  import opened Strings
  import opened Snapshots
  import opened Seqs

  /** The note object handed to `renderEditor`. */
  datatype Note = Note(id: string, title: Option<string>, content: Option<string>, updatedAt: Option<int>)

  /** One rendered textarea: the note it edits and its current text. */
  datatype View = View(noteId: string, value: string)

  /** What an outstanding `update` request will do with its reply. */
  datatype SaveKind = ContentSave | TitleSave | ManualSave
  datatype Pending = Pending(kind: SaveKind, noteId: string, view: nat)

  /** Requests and UI updates the editor causes. */
  datatype Effect =
    | PushSnap(noteId: string, value: string)
    | Update(noteId: string, title: Option<string>, content: Option<string>)
    | SetStatus(message: string)
    | TabTitle(noteId: string, newTitle: string)
    | IndexPatch(noteId: string, title: Option<string>, content: Option<string>, now: int)

  const SnapshotEvery: nat := 50
  const ContentDelayMs: nat := 500
  const TitleDelayMs: nat := 400

  /** The newest stored snapshot, if any (`snaps[snaps.length - 1]`). */
  function Latest(storage: map<string, Stored>, id: string): (r: Option<Snapshot>)
    ensures r.Some? <==> Load(storage, id) != []
    ensures r.Some? ==> r.value == Load(storage, id)[|Load(storage, id)| - 1]
  {
    var snaps := Load(storage, id);
    if snaps == [] then None else Some(snaps[|snaps| - 1])
  }

  /**
   * The recovery check: a restore is offered only for a latest snapshot whose
   * value differs from the note's content and whose time is after the note's
   * `updated_at` (0 when missing).
   */
  predicate OffersRestore(note: Note, latest: Option<Snapshot>) {
    latest.Some?
    && (note.content.None? || latest.value.value != note.content.value)
    && latest.value.ts > (if note.updatedAt.Some? && note.updatedAt.value != 0 then note.updatedAt.value else 0)
  }

  /** The text the new textarea starts with: the snapshot when offered and accepted, otherwise the content or "". */
  function InitialText(note: Note, latest: Option<Snapshot>, accept: bool): (r: string)
    ensures OffersRestore(note, latest) && accept ==> r == latest.value.value
    ensures !(OffersRestore(note, latest) && accept) ==> r == note.content.GetOr("")
  {
    if OffersRestore(note, latest) && accept then latest.value.value else note.content.GetOr("")
  }

  /** Declining, or having nothing newer to offer, always shows the server content. */
  lemma DeclineKeepsContent(note: Note, latest: Option<Snapshot>)
    ensures InitialText(note, latest, false) == note.content.GetOr("")
    ensures latest.Some? && note.updatedAt.Some? && latest.value.ts <= note.updatedAt.value ==> InitialText(note, latest, true) == note.content.GetOr("")
    ensures latest.Some? && note.content == Some(latest.value.value) ==> InitialText(note, latest, true) == latest.value.value
  {
  }

  // ------------------------------------------------------------ in-note find

  datatype Range = Range(start: nat, end: nat)

  /**
   * Case-insensitive search for `query` in `hay`: forward with `indexOf` from
   * `from`, or backward with `lastIndexOf` from `from` (both clamp `from` to
   * `[0, |hay|]`). A hit is the span of the match; an empty query finds nothing.
   */
  function FindMatch(hay: string, query: string, from: int, forward: bool): (r: Option<Range>)
    ensures query == "" ==> r == None
    ensures r.Some? ==>
      && r.value.end == r.value.start + |query| <= |hay|
      && LowerStr(hay[r.value.start..r.value.end]) == LowerStr(query)
    ensures r.Some? && forward ==> r.value.start >= Clamp(from, 0, |hay|)
    ensures r.Some? && forward ==>
      forall j :: Clamp(from, 0, |hay|) <= j < r.value.start ==> !MatchAt(LowerStr(hay), LowerStr(query), j)
    ensures r.Some? && !forward ==> r.value.start <= Clamp(from, 0, |hay|)
    ensures r.Some? && !forward ==>
      forall j :: r.value.start < j <= Clamp(from, 0, |hay|) ==> !MatchAt(LowerStr(hay), LowerStr(query), j)
    ensures r.None? && query != "" && forward ==>
      forall j :: Clamp(from, 0, |hay|) <= j ==> !MatchAt(LowerStr(hay), LowerStr(query), j)
    ensures r.None? && query != "" && !forward ==>
      forall j :: 0 <= j <= Clamp(from, 0, |hay|) ==> !MatchAt(LowerStr(hay), LowerStr(query), j)
  {
    var needle, lh := LowerStr(query), LowerStr(hay);
    if needle == "" then None
    else
      var idx := if forward then IndexOf(lh, needle, from) else LastIndexOf(lh, needle, from);
      if idx < 0 then None
      else
        LowerSlice(hay, idx, idx + |needle|);
        Some(Range(idx, idx + |needle|))
  }

  /** Where `find(dir)` starts: `selectionStart` forward, `max(0, selectionStart - 1)` backward. */
  function FindFrom(selStart: nat, forward: bool): nat {
    if forward then selStart else if selStart > 0 then selStart - 1 else 0
  }

  /**
   * Right after a render the caret is at the end of the text, so a forward
   * find selects nothing, whatever the query, until the caret moves.
   */
  lemma NextAtEndFindsNothing(text: string, query: string)
    ensures FindMatch(text, query, FindFrom(|text|, true), true) == None
  {
  }

  // ------------------------------------------------------------ the editor

  class EditorState {
    /** Every textarea rendered so far, in render order; the last one is on screen. */
    var views: seq<View>
    /** The shared `#titleInput` value. */
    var title: string
    /** The module-level `editCount`. */
    var editCount: nat
    /** The module-level `saveTimer`: the view whose content save is scheduled. */
    var saveTimer: Option<nat>
    /** Views whose own `titleTimer` is running. */
    var titleTimers: set<nat>
    /** `update` requests awaiting their reply. */
    var inflight: seq<Pending>
    /** The selection of the textarea on screen (start and end of the selected span, equal for a caret). */
    var selection: Range
    var effects: seq<Effect>

    /** Every timer and outstanding request refers to a rendered view. */
    ghost predicate Valid()
      reads this
    {
      && (saveTimer.Some? ==> saveTimer.value < |views|)
      && (forall v :: v in titleTimers ==> v < |views|)
      && PendingViews(inflight, |views|)
    }

    constructor ()
      ensures Valid()
      ensures views == [] && title == "" && editCount == 0 && saveTimer == None
      ensures titleTimers == {} && inflight == [] && effects == [] && selection == Range(0, 0)
    {
      views := [];
      title := "";
      editCount := 0;
      saveTimer := None;
      titleTimers := {};
      inflight := [];
      selection := Range(0, 0);
      effects := [];
    }

    /**
     * `renderEditor(note)`: fills the shared title input, runs the recovery
     * check against the snapshots in `storage` (`accept` is the answer to the
     * confirm dialog) and shows a new textarea. Assigning the text to the
     * empty textarea leaves the caret at its end. Pending timers, including
     * the module-level content timer of an earlier note, keep running.
     */
    method Render(note: Note, storage: map<string, Stored>, accept: bool)
      requires Valid()
      modifies this
      ensures Valid()
      ensures views == old(views) + [View(note.id, InitialText(note, Latest(storage, note.id), accept))]
      ensures title == note.title.GetOr("")
      ensures selection == Range(|views[|views| - 1].value|, |views[|views| - 1].value|)
      ensures editCount == old(editCount) && saveTimer == old(saveTimer) && titleTimers == old(titleTimers)
      ensures inflight == old(inflight) && effects == old(effects)
    {
      title := note.title.GetOr("");
      var latest := Latest(storage, note.id);
      var text := note.content.GetOr("");
      if OffersRestore(note, latest) && accept {
        text := latest.value.value;
      }
      views := views + [View(note.id, text)];
      selection := Range(|text|, |text|);
    }

    /**
     * An `input` event on the textarea on screen with new text `value`, after
     * which the browser leaves the selection at `caret`: the module-wide
     * counter goes up, every 50th edit pushes a snapshot at once, and the
     * content timer is restarted for this view (cancelling any pending content
     * save, whichever note it was for). No save is sent.
     */
    method Edit(value: string, caret: Range)
      requires Valid() && views != []
      requires caret.start <= caret.end <= |value|
      modifies this
      ensures Valid()
      ensures views == old(views)[|old(views)| - 1 := View(old(views)[|old(views)| - 1].noteId, value)]
      ensures editCount == old(editCount) + 1
      ensures saveTimer == Some(|views| - 1)
      ensures effects == old(effects) + (if editCount % SnapshotEvery == 0 then [PushSnap(views[|views| - 1].noteId, value)] else [])
      ensures title == old(title) && titleTimers == old(titleTimers) && inflight == old(inflight)
      ensures selection == caret
    {
      var cur := |views| - 1;
      views := views[cur := View(views[cur].noteId, value)];
      editCount := editCount + 1;
      if editCount % SnapshotEvery == 0 {
        effects := effects + [PushSnap(views[cur].noteId, value)];
      }
      saveTimer := Some(cur);
      selection := caret;
    }

    /**
     * The content timer fires: a snapshot of the view's text as it is now is
     * pushed first, then `update` is sent with that text and no title.
     */
    method ContentTimerFire()
      requires Valid() && saveTimer.Some?
      modifies this
      ensures Valid()
      ensures var v := old(views)[old(saveTimer).value];
        && effects == old(effects) + [PushSnap(v.noteId, v.value), Update(v.noteId, None, Some(v.value))]
        && inflight == old(inflight) + [Pending(ContentSave, v.noteId, old(saveTimer).value)]
      ensures saveTimer == None
      ensures views == old(views) && title == old(title) && editCount == old(editCount)
      ensures titleTimers == old(titleTimers) && selection == old(selection)
    {
      var k := saveTimer.value;
      var v := views[k];
      effects := effects + [PushSnap(v.noteId, v.value), Update(v.noteId, None, Some(v.value))];
      inflight := inflight + [Pending(ContentSave, v.noteId, k)];
      saveTimer := None;
    }

    /** An `input` event on the title: restarts the title timer of the view on screen. */
    method TitleEdit(value: string)
      requires Valid() && views != []
      modifies this
      ensures Valid()
      ensures title == value && titleTimers == old(titleTimers) + {|views| - 1}
      ensures views == old(views) && editCount == old(editCount) && saveTimer == old(saveTimer)
      ensures inflight == old(inflight) && effects == old(effects) && selection == old(selection)
    {
      title := value;
      titleTimers := titleTimers + {|views| - 1};
    }

    /** The title timer of view `k` fires: `doSave` with the title as it is now and a null content. */
    method TitleTimerFire(k: nat)
      requires Valid() && k in titleTimers
      modifies this
      ensures Valid()
      ensures effects == old(effects) + [Update(old(views[k].noteId), Some(title), None)]
      ensures inflight == old(inflight) + [Pending(TitleSave, old(views[k].noteId), k)]
      ensures titleTimers == old(titleTimers) - {k}
      ensures views == old(views) && title == old(title) && editCount == old(editCount)
      ensures saveTimer == old(saveTimer) && selection == old(selection)
    {
      effects := effects + [Update(views[k].noteId, Some(title), None)];
      inflight := inflight + [Pending(TitleSave, views[k].noteId, k)];
      titleTimers := titleTimers - {k};
    }

    /**
     * Ctrl/Cmd+S: every `keydown` listener ever added by a render is still
     * attached, so each rendered view sends `doSave` with the shared title and
     * that view's own text.
     */
    method CtrlS()
      requires Valid()
      modifies this
      ensures Valid()
      ensures views == old(views) && title == old(title) && editCount == old(editCount)
      ensures saveTimer == old(saveTimer) && titleTimers == old(titleTimers) && selection == old(selection)
      ensures effects == old(effects) + ManualSaves(views, title, |views|)
      ensures inflight == old(inflight) + ManualPendings(views, |views|)
    {
      var saves, outstanding := effects, inflight;
      for i := 0 to |views|
        modifies {}
        invariant saves == effects + ManualSaves(views, title, i)
        invariant outstanding == inflight + ManualPendings(views, i)
        invariant PendingViews(outstanding, |views|)
      {
        CtrlSStep(views, title, i, effects, inflight, saves, outstanding);
        saves := saves + [Update(views[i].noteId, Some(title), Some(views[i].value))];
        outstanding := outstanding + [Pending(ManualSave, views[i].noteId, i)];
      }
      effects, inflight := saves, outstanding;
    }

    /**
     * The reply to the `k`-th outstanding `update` arrives at clock value `now`
     * (`reply` holds the saved title or the error text). A failed content save
     * only sets the status; a successful one retitles the tab and patches the
     * keyword index with the view's text as it is now. A title save patches the
     * index with the current title whether or not it succeeded.
     */
    method Resolve(k: nat, reply: Result<string, string>, now: int)
      requires Valid() && k < |inflight|
      modifies this
      ensures Valid()
      ensures inflight == old(inflight[..k] + inflight[k + 1..])
      ensures effects == old(effects) + ReplyEffects(old(inflight[k]), reply, old(views[inflight[k].view].value), title, now)
      ensures views == old(views) && title == old(title) && editCount == old(editCount)
      ensures saveTimer == old(saveTimer) && titleTimers == old(titleTimers) && selection == old(selection)
    {
      var p := inflight[k];
      inflight := inflight[..k] + inflight[k + 1..];
      effects := effects + ReplyEffects(p, reply, views[p.view].value, title, now);
    }

    /** `find(dir)` on the textarea on screen, with the search box holding `query`. */
    method Find(query: string, forward: bool)
      requires views != []
      modifies this
      ensures var r := FindMatch(old(views[|views| - 1].value), query, FindFrom(old(selection).start, forward), forward);
        selection == if r.Some? then r.value else old(selection)
      ensures views == old(views) && title == old(title) && editCount == old(editCount)
      ensures saveTimer == old(saveTimer) && titleTimers == old(titleTimers)
      ensures inflight == old(inflight) && effects == old(effects)
    {
      var r := FindMatch(views[|views| - 1].value, query, FindFrom(selection.start, forward), forward);
      if r.Some? {
        selection := r.value;
      }
    }
  }

  /** Every outstanding request belongs to one of the `n` rendered views. */
  predicate PendingViews(ps: seq<Pending>, n: nat) {
    forall i :: 0 <= i < |ps| ==> ps[i].view < n
  }

  lemma PendingViewsSnoc(ps: seq<Pending>, p: Pending, n: nat)
    requires PendingViews(ps, n) && p.view < n
    ensures PendingViews(ps + [p], n)
  {
  }

  /** The requests Ctrl+S leaves outstanding for the first `k` views: a manual save of view `i` for each `i < k`. */
  function ManualPendings(views: seq<View>, k: nat): (r: seq<Pending>)
    requires k <= |views|
    ensures |r| == k
    ensures PendingViews(r, |views|)
    decreases k
  {
    if k == 0 then [] else ManualPendings(views, k - 1) + [Pending(ManualSave, views[k - 1].noteId, k - 1)]
  }

  /** The `doSave` calls of Ctrl+S for the first `k` views, one per view. */
  function ManualSaves(views: seq<View>, title: string, k: nat): (r: seq<Effect>)
    requires k <= |views|
    ensures |r| == k
    decreases k
  {
    if k == 0 then [] else ManualSaves(views, title, k - 1) + [Update(views[k - 1].noteId, Some(title), Some(views[k - 1].value))]
  }

  /** The `i`-th request Ctrl+S leaves outstanding is the manual save of view `i`. */
  lemma {:induction false} ManualPendingAt(views: seq<View>, k: nat, i: nat)
    requires i < k <= |views|
    ensures ManualPendings(views, k)[i] == Pending(ManualSave, views[i].noteId, i)
    decreases k
  {
    if i < k - 1 {
      ManualPendingAt(views, k - 1, i);
    }
  }

  /** One view's save and request extend the Ctrl+S effects and outstanding requests. */
  lemma CtrlSStep(views: seq<View>, title: string, i: nat, effects: seq<Effect>, inflight: seq<Pending>,
                  saves: seq<Effect>, outstanding: seq<Pending>)
    requires i < |views|
    requires saves == effects + ManualSaves(views, title, i)
    requires outstanding == inflight + ManualPendings(views, i)
    requires PendingViews(outstanding, |views|)
    ensures saves + [Update(views[i].noteId, Some(title), Some(views[i].value))] == effects + ManualSaves(views, title, i + 1)
    ensures outstanding + [Pending(ManualSave, views[i].noteId, i)] == inflight + ManualPendings(views, i + 1)
    ensures PendingViews(outstanding + [Pending(ManualSave, views[i].noteId, i)], |views|)
  {
    var save := Update(views[i].noteId, Some(title), Some(views[i].value));
    var pending := Pending(ManualSave, views[i].noteId, i);
    ConcatAssoc(effects, ManualSaves(views, title, i), [save]);
    ConcatAssoc(inflight, ManualPendings(views, i), [pending]);
    PendingViewsSnoc(outstanding, pending, |views|);
  }

  /** The status message, tab title and index patch a reply causes. */
  function ReplyEffects(p: Pending, reply: Result<string, string>, text: string, title: string, now: int): seq<Effect> {
    match p.kind
    case ContentSave =>
      if reply.Err? then [SetStatus("Autosave failed: " + reply.error)]
      else [TabTitle(p.noteId, reply.value), IndexPatch(p.noteId, None, Some(text), now)]
    case TitleSave =>
      DoSaveEffects(p.noteId, reply) + [IndexPatch(p.noteId, Some(title), None, now)]
    case ManualSave =>
      DoSaveEffects(p.noteId, reply)
  }

  /** `doSave`: a failure sets the status and leaves the tab title alone. */
  function DoSaveEffects(id: string, reply: Result<string, string>): seq<Effect> {
    if reply.Err? then [SetStatus("Save failed: " + reply.error)] else [TabTitle(id, reply.value)]
  }

  /**
   * A failed content save reports the failure and neither retitles the tab nor
   * patches the index; a successful one does both for its own note.
   */
  lemma ContentReply(p: Pending, reply: Result<string, string>, text: string, title: string, now: int)
    requires p.kind == ContentSave
    ensures var e := ReplyEffects(p, reply, text, title, now);
      && (reply.Err? ==> forall x :: x in e ==> x.SetStatus?)
      && (reply.Ok? ==> TabTitle(p.noteId, reply.value) in e && IndexPatch(p.noteId, None, Some(text), now) in e)
      && (forall x :: x in e ==> !x.Update? && !x.PushSnap?)
  {
  }

  /**
   * With views for two different notes, Ctrl+S saves the title on screen into
   * both notes: the earlier note receives the later note's title.
   */
  lemma CtrlSOverwritesEarlierTitle(a: View, b: View, t: string)
    requires a.noteId != b.noteId
    ensures ManualSaves([a, b], t, 2) == [Update(a.noteId, Some(t), Some(a.value)), Update(b.noteId, Some(t), Some(b.value))]
  {
  }
}
