/**
 * The groups sidebar of the renderer (`electron/renderer/groups.js`): the
 * per-group note counts, drag-reordering of `state.groups`, the "Free Notes"
 * count, and the new-group button.
 *
 * `window.api.groups.notes(gid)` is the oracle `answer`; the requests the
 * panel sends are appended to `calls`.
 */
module GroupsView {
  import opened Wrappers
  import opened Strings
  import opened Seqs

  datatype Group = Group(id: string, name: string)

  /** An answer of `groups.notes(gid)`: a failure, or a success whose `note_ids` may be missing. */
  datatype Reply = Failed | Members(noteIds: Option<seq<string>>)

  datatype GroupCall = Reorder(ids: seq<string>) | AddNote(groupId: string, noteId: string) | Create(name: string)

  /** `r.ok ? (r.data.note_ids || []).length : 0`. */
  function MemberCount(r: Reply): nat {
    if r.Members? then |r.noteIds.GetOr([])| else 0
  }

  function GroupIds(groups: seq<Group>): (r: seq<string>)
    ensures |r| == |groups| && forall i :: 0 <= i < |groups| ==> r[i] == groups[i].id
  {
    seq(|groups|, i requires 0 <= i < |groups| => groups[i].id)
  }

  /**
   * The `counts` object: one entry per group id, the size of its membership
   * list, or 0 when the fetch failed.
   */
  method Counts(groups: seq<Group>, answer: string -> Reply) returns (counts: map<string, nat>)
    ensures counts.Keys == set i | 0 <= i < |groups| :: groups[i].id
    ensures forall i :: 0 <= i < |groups| ==> counts[groups[i].id] == MemberCount(answer(groups[i].id))
  {
    counts := map[];
    var k := 0;
    while k < |groups|
      invariant 0 <= k <= |groups|
      invariant counts.Keys == set i | 0 <= i < k :: groups[i].id
      invariant forall i :: 0 <= i < k ==> counts[groups[i].id] == MemberCount(answer(groups[i].id))
    {
      counts := counts[groups[k].id := MemberCount(answer(groups[k].id))];
      k := k + 1;
    }
  }

  /** The label count `counts[g.id] || 0`. */
  function Shown(counts: map<string, nat>, id: string): nat {
    if id in counts then counts[id] else 0
  }

  /** The ids listed by the successful answers for `groups`. */
  function Grouped(groups: seq<Group>, answer: string -> Reply): (r: set<string>)
    ensures forall x :: x in r <==>
      exists i :: 0 <= i < |groups| && answer(groups[i].id).Members? && x in answer(groups[i].id).noteIds.GetOr([])
  {
    if groups == [] then {}
    else
      var n := |groups| - 1;
      var rest := Grouped(groups[..n], answer);
      var r := answer(groups[n].id);
      var mine := if r.Members? then set x | x in r.noteIds.GetOr([]) else {};
      assert forall i :: 0 <= i < n ==> groups[..n][i] == groups[i];
      rest + mine
  }

  /** `[...new Set(ids)]`: each id once, in order of first appearance. */
  function Dedup(ids: seq<string>): (r: seq<string>)
    ensures Distinct(r)
    ensures forall x :: x in r <==> x in ids
  {
    if ids == [] then []
    else
      var n := |ids| - 1;
      var d := Dedup(ids[..n]);
      assert forall x :: x in ids <==> x in ids[..n] || x == ids[n];
      if ids[n] in d then d else d + [ids[n]]
  }

  /** The elements of `ids` not in `grouped`, in order. */
  function Filter(ids: seq<string>, grouped: set<string>): (r: seq<string>)
    ensures forall x :: x in r <==> x in ids && x !in grouped
    ensures Distinct(ids) ==> Distinct(r)
  {
    if ids == [] then []
    else
      var n := |ids| - 1;
      var f := Filter(ids[..n], grouped);
      assert forall x :: x in ids <==> x in ids[..n] || x == ids[n];
      if ids[n] in grouped then f else f + [ids[n]]
  }

  /**
   * The "Free Notes" list: the loop collects the ids of every successful
   * membership answer, then the distinct note ids outside that set remain.
   */
  method FreeNotes(noteIds: seq<string>, groups: seq<Group>, answer: string -> Reply) returns (free: seq<string>)
    ensures free == Filter(Dedup(noteIds), Grouped(groups, answer))
  {
    var grouped: set<string> := {};
    var k := 0;
    while k < |groups|
      invariant 0 <= k <= |groups|
      invariant grouped == Grouped(groups[..k], answer)
    {
      var r := answer(groups[k].id);
      if r.Members? {
        var ids := r.noteIds.GetOr([]);
        var j := 0;
        while j < |ids|
          invariant 0 <= j <= |ids|
          invariant grouped == Grouped(groups[..k], answer) + set x | x in ids[..j]
        {
          assert forall x :: x in ids[..j + 1] <==> x in ids[..j] || x == ids[j];
          grouped := grouped + {ids[j]};
          j := j + 1;
        }
        assert ids[..j] == ids;
      }
      assert groups[..k + 1][..k] == groups[..k];
      k := k + 1;
    }
    assert groups[..k] == groups;
    free := Filter(Dedup(noteIds), grouped);
  }

  /** A free note is one listed by no successful membership answer; each appears once. */
  lemma FreeExact(noteIds: seq<string>, groups: seq<Group>, answer: string -> Reply, x: string)
    ensures var free := Filter(Dedup(noteIds), Grouped(groups, answer));
      && Distinct(free)
      && (x in free <==>
           x in noteIds
           && forall i :: 0 <= i < |groups| && answer(groups[i].id).Members? ==> x !in answer(groups[i].id).noteIds.GetOr([]))
  {
  }

  /** `data.split(':')[1]`: the text after the first ':' up to the next one. */
  function SecondField(data: string): string {
    var i := FirstColon(data, 0);
    if i < 0 then "" else
      var rest := data[i + 1..];
      var j := FirstColon(rest, 0);
      if j < 0 then rest else rest[..j]
  }

  function FirstColon(s: string, k: nat): (r: int)
    requires k <= |s|
    ensures r == -1 || (k <= r < |s| && s[r] == ':')
    ensures forall j :: k <= j < |s| && (r == -1 || j < r) ==> s[j] != ':'
    decreases |s| - k
  {
    if k == |s| then -1 else if s[k] == ':' then k else FirstColon(s, k + 1)
  }

  predicate IsNoteDrag(data: string) {
    |data| >= 5 && data[..5] == "note:"
  }

  /** For a note id without ':', the field read back from the drag data is the id. */
  lemma NoteDataRoundTrip(id: string)
    requires forall i :: 0 <= i < |id| ==> id[i] != ':'
    ensures IsNoteDrag("note:" + id)
    ensures SecondField("note:" + id) == id
  {
    var data := "note:" + id;
    assert data[4] == ':';
    assert FirstColon(data, 0) == 4 by {
      assert forall j :: 0 <= j < 4 ==> data[j] != ':';
    }
    assert data[5..] == id;
  }

  /** The state the panel keeps: `state.groups`, the module-level `dragGroupId`, the name input. */
  class GroupsPanel {
    var groups: seq<Group>
    var dragGroupId: Option<string>
    var nameInput: string
    var calls: seq<GroupCall>

    constructor (groups0: seq<Group>)
      ensures groups == groups0 && dragGroupId == None && nameInput == "" && calls == []
    {
      groups := groups0;
      dragGroupId := None;
      nameInput := "";
      calls := [];
    }

    /** `dragstart` on the item of group `id`. */
    method DragStart(id: string)
      modifies this
      ensures dragGroupId == Some(id)
      ensures groups == old(groups) && nameInput == old(nameInput) && calls == old(calls)
    {
      dragGroupId := Some(id);
    }

    /**
     * A `drop` on the item of group `target` carrying `data`. Both listeners on
     * the item run: the reorder listener moves the last dragged group to the
     * target's index when both are found and differ, and sends the new order;
     * the note listener adds a dragged note to the target group.
     */
    method Drop(target: string, data: string)
      modifies this
      ensures groups == DropOrder(old(groups), old(dragGroupId), target)
      ensures calls == old(calls) + ReorderCall(old(groups), old(dragGroupId), target) + NoteCall(target, data)
      ensures dragGroupId == old(dragGroupId) && nameInput == old(nameInput)
    {
      var from := if dragGroupId.Some? then GroupIndex(groups, dragGroupId.value) else -1;
      var to := GroupIndex(groups, target);
      ghost var reorder := ReorderCall(groups, dragGroupId, target);
      ghost var order := DropOrder(groups, dragGroupId, target);
      if from >= 0 && to >= 0 && from != to {
        groups := Move(groups, from, to);
        assert groups == order;
        calls := calls + [Reorder(GroupIds(groups))];
      }
      assert groups == order && calls == old(calls) + reorder;
      if IsNoteDrag(data) {
        calls := calls + [AddNote(target, SecondField(data))];
      }
    }

    /** The Add button: a name that is blank after trimming does nothing. */
    method AddGroup()
      modifies this
      ensures var name := Trim(old(nameInput), JsSpace);
        if name == "" then calls == old(calls) && nameInput == old(nameInput)
        else calls == old(calls) + [Create(name)] && nameInput == ""
      ensures groups == old(groups) && dragGroupId == old(dragGroupId)
    {
      var name := Trim(nameInput, JsSpace);
      if name == "" {
        return;
      }
      calls := calls + [Create(name)];
      nameInput := "";
    }
  }

  /** `state.groups.findIndex(x => x.id === id)`. */
  function GroupIndex(groups: seq<Group>, id: string): (i: int)
    ensures -1 <= i < |groups|
    ensures i >= 0 ==> groups[i].id == id
    ensures forall j :: 0 <= j < |groups| && (i < 0 || j < i) ==> groups[j].id != id
  {
    if groups == [] then -1
    else if groups[0].id == id then 0
    else
      var k := GroupIndex(groups[1..], id);
      if k < 0 then -1 else k + 1
  }

  /** The group order after a drop. */
  function DropOrder(groups: seq<Group>, dragged: Option<string>, target: string): (r: seq<Group>)
    ensures |r| == |groups| && multiset(r) == multiset(groups)
    ensures var from := if dragged.Some? then GroupIndex(groups, dragged.value) else -1;
      var to := GroupIndex(groups, target);
      if from >= 0 && to >= 0 && from != to then
        r[to] == groups[from] && RemoveAt(r, to) == RemoveAt(groups, from)
      else r == groups
  {
    var from := if dragged.Some? then GroupIndex(groups, dragged.value) else -1;
    var to := GroupIndex(groups, target);
    if from >= 0 && to >= 0 && from != to then Move(groups, from, to) else groups
  }

  function ReorderCall(groups: seq<Group>, dragged: Option<string>, target: string): seq<GroupCall> {
    var from := if dragged.Some? then GroupIndex(groups, dragged.value) else -1;
    var to := GroupIndex(groups, target);
    if from >= 0 && to >= 0 && from != to then [Reorder(GroupIds(DropOrder(groups, dragged, target)))] else []
  }

  function NoteCall(target: string, data: string): seq<GroupCall> {
    if IsNoteDrag(data) then [AddNote(target, SecondField(data))] else []
  }

  /**
   * `dragGroupId` is never cleared, so after one group has been dragged, a note
   * dropped on another group also moves that earlier group: dropping note `n`
   * on group `c` after dragging group `a` reorders `[a, b, c]` to `[b, c, a]`
   * and sends that order.
   */
  lemma StaleDragReordersOnNoteDrop(a: Group, b: Group, c: Group, n: string)
    requires a.id != b.id && b.id != c.id && a.id != c.id
    ensures IsNoteDrag("note:" + n)
    ensures DropOrder([a, b, c], Some(a.id), c.id) == [b, c, a]
    ensures ReorderCall([a, b, c], Some(a.id), c.id) == [Reorder([b.id, c.id, a.id])]
  {
    assert ("note:" + n)[..5] == "note:";
    ThreeIndices(a, b, c);
    ThreeDrop(a, b, c);
    ThreeIds(a, b, c);
  }

  lemma ThreeIds(a: Group, b: Group, c: Group)
    ensures GroupIds([b, c, a]) == [b.id, c.id, a.id]
  {
  }

  lemma ThreeDrop(a: Group, b: Group, c: Group)
    requires a.id != b.id && b.id != c.id && a.id != c.id
    ensures DropOrder([a, b, c], Some(a.id), c.id) == [b, c, a]
  {
    ThreeIndices(a, b, c);
    FirstToLast([a, b, c]);
  }

  lemma ThreeIndices(a: Group, b: Group, c: Group)
    requires a.id != b.id && b.id != c.id && a.id != c.id
    ensures GroupIndex([a, b, c], a.id) == 0 && GroupIndex([a, b, c], c.id) == 2
  {
    assert [a, b, c][1..] == [b, c] && [b, c][1..] == [c];
    assert GroupIndex([c], c.id) == 0;
    assert GroupIndex([b, c], c.id) == 1;
  }

  lemma FirstToLast(s: seq<Group>)
    requires |s| == 3
    ensures Move(s, 0, 2) == [s[1], s[2], s[0]]
  {
    MoveForward(s, 0, 2);
    assert s[1..3] == [s[1], s[2]];
  }

  /** The order after a drop when the reorder listener ignores drops that carry a note. */
  function DropOrderNoteAware(groups: seq<Group>, dragged: Option<string>, target: string, data: string): (r: seq<Group>)
    ensures IsNoteDrag(data) ==> r == groups
    ensures !IsNoteDrag(data) ==> r == DropOrder(groups, dragged, target)
    ensures |r| == |groups| && multiset(r) == multiset(groups)
  {
    if IsNoteDrag(data) then groups else DropOrder(groups, dragged, target)
  }

  /**
   * With the note-aware listener, a stale drag source can no longer move groups:
   * whatever was dragged before, a note drop leaves the order as it was, and a
   * group drop moves the dragged group to the target's index.
   */
  lemma NoteAwareDropKeepsOrder(groups: seq<Group>, dragged: Option<string>, target: string, n: string)
    requires forall i :: 0 <= i < |n| ==> n[i] != ':'
    ensures DropOrderNoteAware(groups, dragged, target, "note:" + n) == groups
    ensures var from := if dragged.Some? then GroupIndex(groups, dragged.value) else -1;
      var to := GroupIndex(groups, target);
      from >= 0 && to >= 0 && from != to ==>
        DropOrderNoteAware(groups, dragged, target, "") [to] == groups[from]
  {
    NoteDataRoundTrip(n);
  }
}
