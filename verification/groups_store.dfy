/**
 * The group tables of the lite storage layer (`lite/src/storage/groups.py`):
 * the `groups` table (one row per group, with a display position) and the
 * `group_notes` table (one row per note in a group, with a position inside
 * the group). Each table is a frame stored on a `Files.Disk`, read with
 * `Parquet.ReadSafe` and written with the atomic replace. A Python exception
 * is an `Err`; `uuid4()` and the clock are parameters.
 */
module GroupsStore {
  import opened Wrappers
  import opened Strings
  import opened Seqs
  import opened Files
  import opened Parquet

  datatype GroupRow = GroupRow(groupId: string, name: string, createdAt: int, updatedAt: int, position: int)
  datatype MemberRow = MemberRow(groupId: string, noteId: string, position: int, addedAt: int)

  /** The `{"id", "name"}` records the group functions return. */
  datatype GroupInfo = GroupInfo(id: string, name: string)

  function Info(g: GroupRow): GroupInfo { GroupInfo(g.groupId, g.name) }

  const GroupsTable: string := TablePath("groups")
  const MembersTable: string := TablePath("group_notes")

  // ------------------------------------------------------------- listing

  /** Python's `<=` on strings: lexicographic on code points. */
  predicate StrLe(a: string, b: string)
    decreases |a|
  {
    a == [] || (b != [] && (a[0] < b[0] || (a[0] == b[0] && StrLe(a[1..], b[1..]))))
  }

  lemma {:induction false} StrLeTotal(a: string, b: string)
    ensures StrLe(a, b) || StrLe(b, a)
    decreases |a|
  {
    if a != [] && b != [] && a[0] == b[0] {
      StrLeTotal(a[1..], b[1..]);
    }
  }

  lemma {:induction false} StrLeTrans(a: string, b: string, c: string)
    requires StrLe(a, b) && StrLe(b, c)
    ensures StrLe(a, c)
    decreases |a|
  {
    if a != [] && a[0] == b[0] && b[0] == c[0] {
      StrLeTrans(a[1..], b[1..], c[1..]);
    }
  }

  /** `sort_values(["position", "name"])`: by position, ties by name. */
  predicate ByPositionName(a: GroupRow, b: GroupRow) {
    a.position < b.position || (a.position == b.position && StrLe(a.name, b.name))
  }

  lemma ByPositionNameOrders()
    ensures TotalPreorder(ByPositionName)
  {
    forall a: GroupRow, b: GroupRow ensures ByPositionName(a, b) || ByPositionName(b, a) {
      StrLeTotal(a.name, b.name);
    }
    forall a: GroupRow, b: GroupRow, c: GroupRow | ByPositionName(a, b) && ByPositionName(b, c)
      ensures ByPositionName(a, c)
    {
      if a.position == b.position == c.position {
        StrLeTrans(a.name, b.name, c.name);
      }
    }
  }

  /** The rows in listing order: a permutation sorted by position, then name. */
  function Ordered(rows: seq<GroupRow>): (r: seq<GroupRow>)
    ensures multiset(r) == multiset(rows)
    ensures SortedBy(r, ByPositionName)
  {
    ByPositionNameOrders();
    SortBySorted(rows, ByPositionName);
    SortBy(rows, ByPositionName)
  }

  /**
   * `list_groups()`: every group once, as `{"id", "name"}`, in the order of
   * `Ordered`; a failed read is an error.
   */
  function ListGroups(files: map<string, Stored<seq<GroupRow>>>): (r: Result<seq<GroupInfo>, string>)
    ensures r.Err? <==> ReadSafe(files, GroupsTable, []).Err?
    ensures r.Ok? ==> var o := Ordered(ReadSafe(files, GroupsTable, []).value);
      |r.value| == |o| && forall i :: 0 <= i < |o| ==> r.value[i] == Info(o[i])
  {
    match ReadSafe(files, GroupsTable, [])
    case Err(e) => Err(e)
    case Ok(rows) =>
      var o := Ordered(rows);
      Ok(seq(|o|, i requires 0 <= i < |o| => Info(o[i])))
  }

  /** A row whose position exceeds every other is listed last. */
  lemma {:induction false} HighestPositionListedLast(rows: seq<GroupRow>, rec: GroupRow)
    requires forall g :: g in rows ==> g.position < rec.position
    ensures var o := Ordered(rows + [rec]); o[|o| - 1] == rec
  {
    var all := rows + [rec];
    var o := Ordered(all);
    var last := o[|o| - 1];
    PermutationMember(o, all, last);
    PermutationMember(all, o, rec);
    LastHighest(o);
  }

  /** In listing order no row has a higher position than the last one. */
  lemma LastHighest(o: seq<GroupRow>)
    requires o != [] && SortedBy(o, ByPositionName)
    ensures forall g :: g in o ==> g.position <= o[|o| - 1].position
  {
    forall g | g in o ensures g.position <= o[|o| - 1].position {
      var k :| 0 <= k < |o| && o[k] == g;
      if k < |o| - 1 {
        assert ByPositionName(o[k], o[|o| - 1]);
      }
    }
  }

  // ------------------------------------------------------------- creating

  /** The first row whose name equals `name` ignoring case, if any. */
  function SameName(rows: seq<GroupRow>, name: string): (r: Option<nat>)
    ensures r.Some? ==> r.value < |rows| && LowerStr(rows[r.value].name) == LowerStr(name)
    ensures forall i :: 0 <= i < |rows| && (r.None? || i < r.value) ==> LowerStr(rows[i].name) != LowerStr(name)
  {
    if rows == [] then None
    else if LowerStr(rows[0].name) == LowerStr(name) then Some(0)
    else match SameName(rows[1..], name)
      case None => None
      case Some(k) => Some(k + 1)
  }

  /** The largest position in a non-empty table. */
  function MaxPosition(rows: seq<GroupRow>): (m: int)
    requires rows != []
    ensures forall g :: g in rows ==> g.position <= m
    ensures exists g :: g in rows && g.position == m
  {
    if |rows| == 1 then rows[0].position
    else
      var rest := MaxPosition(rows[1..]);
      assert forall g :: g in rows <==> g == rows[0] || g in rows[1..];
      if rows[0].position >= rest then rows[0].position else rest
  }

  /** The position a new group gets: one past the largest, or 0 for an empty table. */
  function NextPosition(rows: seq<GroupRow>): (p: int)
    ensures forall g :: g in rows ==> g.position < p
    ensures rows == [] ==> p == 0
    ensures rows != [] ==> exists g :: g in rows && g.position == p - 1
  {
    if rows == [] then 0 else MaxPosition(rows) + 1
  }

  /** A group just created is listed after every existing one. */
  lemma NewGroupListedLast(rows: seq<GroupRow>, gid: string, name: string, now: int)
    ensures var o := Ordered(rows + [GroupRow(gid, name, now, now, NextPosition(rows))]);
      o[|o| - 1] == GroupRow(gid, name, now, now, NextPosition(rows))
  {
    HighestPositionListedLast(rows, GroupRow(gid, name, now, now, NextPosition(rows)));
  }

  /**
   * `create_group(name)`: the name is stripped and must not be blank; a group
   * whose name matches ignoring case is returned as it is, without a write;
   * otherwise a row with the fresh id `gid`, both timestamps `now` and the
   * next position is appended and the table replaced.
   */
  method CreateGroup(disk: Disk<seq<GroupRow>>, name: string, gid: string, now: int) returns (r: Result<GroupInfo, string>)
    modifies disk
    ensures var n := Trim(name, PySpace);
      var read := ReadSafe(old(disk.files), GroupsTable, []);
      if n == [] then r == Err("Group name required") && disk.files == old(disk.files)
      else if read.Err? then r.Err? && disk.files == old(disk.files)
      else if SameName(read.value, n).Some? then
        r == Ok(Info(read.value[SameName(read.value, n).value])) && disk.files == old(disk.files)
      else
        r == Ok(GroupInfo(gid, n))
        && AfterAtomicWrite(disk.files, old(disk.files), GroupsTable,
                            read.value + [GroupRow(gid, n, now, now, NextPosition(read.value))])
  {
    var n := Trim(name, PySpace);
    if n == [] {
      return Err("Group name required");
    }
    var read := ReadSafe(disk.files, GroupsTable, []);
    if read.Err? {
      return Err(read.error);
    }
    var rows := read.value;
    var dup := SameName(rows, n);
    if dup.Some? {
      return Ok(Info(rows[dup.value]));
    }
    disk.AtomicWrite(GroupsTable, rows + [GroupRow(gid, n, now, now, NextPosition(rows))]);
    r := Ok(GroupInfo(gid, n));
  }

  // ------------------------------------------------------------- renaming

  /** Every row of group `gid` takes the new name and timestamp; nothing else changes. */
  function Renamed(rows: seq<GroupRow>, gid: string, newName: string, now: int): (r: seq<GroupRow>)
    ensures |r| == |rows|
    ensures forall i :: 0 <= i < |rows| ==>
      r[i].groupId == rows[i].groupId && r[i].position == rows[i].position && r[i].createdAt == rows[i].createdAt
    ensures forall i :: 0 <= i < |rows| && rows[i].groupId == gid ==> r[i].name == newName && r[i].updatedAt == now
    ensures forall i :: 0 <= i < |rows| && rows[i].groupId != gid ==> r[i] == rows[i]
  {
    seq(|rows|, i requires 0 <= i < |rows| =>
      if rows[i].groupId == gid then rows[i].(name := newName, updatedAt := now) else rows[i])
  }

  predicate HasGroup(rows: seq<GroupRow>, gid: string) {
    exists g :: g in rows && g.groupId == gid
  }

  /**
   * `rename_group(group_id, new_name)`: an empty table and an unknown id are
   * errors that write nothing; otherwise the renamed table replaces the old one.
   * The new name is stored as given, unstripped.
   */
  method RenameGroup(disk: Disk<seq<GroupRow>>, gid: string, newName: string, now: int) returns (r: Result<GroupInfo, string>)
    modifies disk
    ensures var read := ReadSafe(old(disk.files), GroupsTable, []);
      if read.Err? then r.Err? && disk.files == old(disk.files)
      else if read.value == [] then r == Err("No groups") && disk.files == old(disk.files)
      else if !HasGroup(read.value, gid) then r == Err("Group not found") && disk.files == old(disk.files)
      else
        r == Ok(GroupInfo(gid, newName))
        && AfterAtomicWrite(disk.files, old(disk.files), GroupsTable, Renamed(read.value, gid, newName, now))
  {
    var read := ReadSafe(disk.files, GroupsTable, []);
    if read.Err? {
      return Err(read.error);
    }
    if read.value == [] {
      return Err("No groups");
    }
    if !HasGroup(read.value, gid) {
      return Err("Group not found");
    }
    disk.AtomicWrite(GroupsTable, Renamed(read.value, gid, newName, now));
    r := Ok(GroupInfo(gid, newName));
  }

  // ------------------------------------------------------------- deleting

  function NotGroup(gid: string): GroupRow -> bool { (g: GroupRow) => g.groupId != gid }
  function NotInGroup(gid: string): MemberRow -> bool { (m: MemberRow) => m.groupId != gid }

  /**
   * `delete_group(group_id)`: a non-empty groups table loses the group's rows,
   * then a non-empty membership table loses the group's memberships; the
   * answer is True. A failed read stops the operation with an error, after the
   * groups table was already written if it was the second read that failed.
   */
  method DeleteGroup(groups: Disk<seq<GroupRow>>, members: Disk<seq<MemberRow>>, gid: string) returns (r: Result<bool, string>)
    modifies groups, members
    ensures var g := ReadSafe(old(groups.files), GroupsTable, []);
      var m := ReadSafe(old(members.files), MembersTable, []);
      && (g.Err? ==> r.Err? && groups.files == old(groups.files) && members.files == old(members.files))
      && (g.Ok? ==>
            if g.value == [] then groups.files == old(groups.files)
            else AfterAtomicWrite(groups.files, old(groups.files), GroupsTable, Where(g.value, NotGroup(gid))))
      && (g.Ok? && m.Err? ==> r.Err? && members.files == old(members.files))
      && (g.Ok? && m.Ok? ==>
            r == Ok(true)
            && if m.value == [] then members.files == old(members.files)
               else AfterAtomicWrite(members.files, old(members.files), MembersTable, Where(m.value, NotInGroup(gid))))
  {
    var g := ReadSafe(groups.files, GroupsTable, []);
    if g.Err? {
      return Err(g.error);
    }
    if g.value != [] {
      groups.AtomicWrite(GroupsTable, Where(g.value, NotGroup(gid)));
    }
    var m := ReadSafe(members.files, MembersTable, []);
    if m.Err? {
      return Err(m.error);
    }
    if m.value != [] {
      members.AtomicWrite(MembersTable, Where(m.value, NotInGroup(gid)));
    }
    r := Ok(true);
  }

  /** After the deletion neither table mentions the group, and every other row is kept. */
  lemma DeleteGroupRemovesAll(groups: seq<GroupRow>, members: seq<MemberRow>, gid: string)
    ensures !HasGroup(Where(groups, NotGroup(gid)), gid)
    ensures forall m :: m in Where(members, NotInGroup(gid)) ==> m.groupId != gid
    ensures forall g :: g in groups && g.groupId != gid ==> g in Where(groups, NotGroup(gid))
    ensures forall m :: m in members && m.groupId != gid ==> m in Where(members, NotInGroup(gid))
  {
  }

  // ---------------------------------------------------------- memberships

  predicate HasPair(rows: seq<MemberRow>, gid: string, nid: string) {
    exists m :: m in rows && m.groupId == gid && m.noteId == nid
  }

  /** The largest position among the rows of group `gid`, which has some. */
  function MaxInGroup(rows: seq<MemberRow>, gid: string): (p: int)
    requires exists m :: m in rows && m.groupId == gid
    ensures forall m :: m in rows && m.groupId == gid ==> m.position <= p
    ensures exists m :: m in rows && m.groupId == gid && m.position == p
  {
    assert forall m :: m in rows <==> m == rows[0] || m in rows[1..];
    if rows[0].groupId != gid then MaxInGroup(rows[1..], gid)
    else if !(exists m :: m in rows[1..] && m.groupId == gid) then rows[0].position
    else
      var rest := MaxInGroup(rows[1..], gid);
      if rows[0].position >= rest then rows[0].position else rest
  }

  /** The position a new member of `gid` gets: one past the group's largest, or 0. */
  function NextInGroup(rows: seq<MemberRow>, gid: string): (p: int)
    ensures forall m :: m in rows && m.groupId == gid ==> m.position < p
    ensures (forall m :: m in rows ==> m.groupId != gid) ==> p == 0
  {
    if exists m :: m in rows && m.groupId == gid then MaxInGroup(rows, gid) + 1 else 0
  }

  /** The membership table after adding `nid` to `gid`: unchanged when the pair exists. */
  function Added(rows: seq<MemberRow>, gid: string, nid: string, now: int): (r: seq<MemberRow>)
    ensures HasPair(r, gid, nid)
    ensures HasPair(rows, gid, nid) ==> r == rows
    ensures !HasPair(rows, gid, nid) ==> |r| == |rows| + 1 && r[..|rows|] == rows
  {
    if HasPair(rows, gid, nid) then rows
    else
      var r := rows + [MemberRow(gid, nid, NextInGroup(rows, gid), now)];
      assert r[|rows|] in r;
      r
  }

  /** Adding a pair twice is the same as adding it once. */
  lemma AddIdempotent(rows: seq<MemberRow>, gid: string, nid: string, t1: int, t2: int)
    ensures Added(Added(rows, gid, nid, t1), gid, nid, t2) == Added(rows, gid, nid, t1)
  {
  }

  /**
   * `add_note_to_group(group_id, note_id)`: an existing pair answers True
   * without a write; otherwise a row with the next in-group position and
   * `added_at = now` is appended and the table replaced.
   */
  method AddNoteToGroup(disk: Disk<seq<MemberRow>>, gid: string, nid: string, now: int) returns (r: Result<bool, string>)
    modifies disk
    ensures var read := ReadSafe(old(disk.files), MembersTable, []);
      if read.Err? then r.Err? && disk.files == old(disk.files)
      else
        r == Ok(true)
        && if HasPair(read.value, gid, nid) then disk.files == old(disk.files)
           else AfterAtomicWrite(disk.files, old(disk.files), MembersTable, Added(read.value, gid, nid, now))
  {
    var read := ReadSafe(disk.files, MembersTable, []);
    if read.Err? {
      return Err(read.error);
    }
    if HasPair(read.value, gid, nid) {
      return Ok(true);
    }
    disk.AtomicWrite(MembersTable, Added(read.value, gid, nid, now));
    r := Ok(true);
  }

  function NotPair(gid: string, nid: string): MemberRow -> bool {
    (m: MemberRow) => !(m.groupId == gid && m.noteId == nid)
  }

  /**
   * `remove_note_from_group(group_id, note_id)`: an empty table answers True
   * without a write; otherwise the table without the pair replaces it.
   */
  method RemoveNoteFromGroup(disk: Disk<seq<MemberRow>>, gid: string, nid: string) returns (r: Result<bool, string>)
    modifies disk
    ensures var read := ReadSafe(old(disk.files), MembersTable, []);
      if read.Err? then r.Err? && disk.files == old(disk.files)
      else
        r == Ok(true)
        && if read.value == [] then disk.files == old(disk.files)
           else AfterAtomicWrite(disk.files, old(disk.files), MembersTable, Where(read.value, NotPair(gid, nid)))
  {
    var read := ReadSafe(disk.files, MembersTable, []);
    if read.Err? {
      return Err(read.error);
    }
    if read.value != [] {
      disk.AtomicWrite(MembersTable, Where(read.value, NotPair(gid, nid)));
    }
    r := Ok(true);
  }

  /** Removing only the given pair: it is gone and every other row stays. */
  lemma RemoveOnlyPair(rows: seq<MemberRow>, gid: string, nid: string)
    ensures !HasPair(Where(rows, NotPair(gid, nid)), gid, nid)
    ensures forall m :: m in rows && !(m.groupId == gid && m.noteId == nid) ==> m in Where(rows, NotPair(gid, nid))
  {
  }

  /** Removing a pair just added restores the table it was added to. */
  lemma {:induction false} RemoveUndoesAdd(rows: seq<MemberRow>, gid: string, nid: string, now: int)
    requires !HasPair(rows, gid, nid)
    ensures Where(Added(rows, gid, nid, now), NotPair(gid, nid)) == rows
  {
    var rec := MemberRow(gid, nid, NextInGroup(rows, gid), now);
    assert Added(rows, gid, nid, now) == rows + [rec];
    WhereConcat(rows, [rec], NotPair(gid, nid));
    WhereAll(rows, NotPair(gid, nid));
    assert Where([rec], NotPair(gid, nid)) == [];
  }

  // ------------------------------------------------------------ reordering

  /** `{gid: i for i, gid in enumerate(ids)}`: for a repeated id the last index wins. */
  function PosMap(ids: seq<string>): (m: map<string, nat>)
    ensures m.Keys == set x | x in ids
    ensures forall x :: x in m ==> m[x] < |ids| && ids[m[x]] == x
    ensures forall x, j :: x in m && m[x] < j < |ids| ==> ids[j] != x
  {
    if ids == [] then map[]
    else
      var n := |ids| - 1;
      assert forall x :: x in ids <==> x in ids[..n] || x == ids[n];
      PosMap(ids[..n])[ids[n] := n]
  }

  /** One row of `reorder_groups`: a listed group takes its position and the clock reading. */
  function Reposition(g: GroupRow, pos: map<string, nat>, stamp: int): GroupRow {
    if g.groupId in pos then g.(position := pos[g.groupId], updatedAt := stamp) else g
  }

  /**
   * The groups table after `reorder_groups(ids)`, where `clock(k)` is the time
   * read while row `k` is visited.
   */
  function Reordered(rows: seq<GroupRow>, ids: seq<string>, clock: nat -> int): (r: seq<GroupRow>)
    ensures |r| == |rows|
    ensures forall k :: 0 <= k < |rows| ==> r[k].groupId == rows[k].groupId && r[k].name == rows[k].name
    ensures forall k :: 0 <= k < |rows| && rows[k].groupId in ids ==>
      0 <= r[k].position < |ids| && ids[r[k].position] == rows[k].groupId && r[k].updatedAt == clock(k)
    ensures forall k :: 0 <= k < |rows| && rows[k].groupId !in ids ==> r[k] == rows[k]
  {
    var pos := PosMap(ids);
    var r := seq(|rows|, k requires 0 <= k < |rows| => Reposition(rows[k], pos, clock(k)));
    assert forall k :: 0 <= k < |rows| ==> r[k] == Reposition(rows[k], pos, clock(k));
    r
  }

  /** With distinct ids, a listed group's new position is the index of its id. */
  lemma ReorderedIndex(rows: seq<GroupRow>, ids: seq<string>, clock: nat -> int, k: nat, i: nat)
    requires Distinct(ids) && k < |rows| && i < |ids| && ids[i] == rows[k].groupId
    ensures Reordered(rows, ids, clock)[k].position == i
  {
  }

  /**
   * `reorder_groups(ordered_ids)`: an empty table answers True without a
   * write; otherwise each row is visited in turn and the result replaces
   * the table.
   */
  method ReorderGroups(disk: Disk<seq<GroupRow>>, ids: seq<string>, clock: nat -> int) returns (r: Result<bool, string>)
    modifies disk
    ensures var read := ReadSafe(old(disk.files), GroupsTable, []);
      if read.Err? then r.Err? && disk.files == old(disk.files)
      else
        r == Ok(true)
        && if read.value == [] then disk.files == old(disk.files)
           else AfterAtomicWrite(disk.files, old(disk.files), GroupsTable, Reordered(read.value, ids, clock))
  {
    var read := ReadSafe(disk.files, GroupsTable, []);
    if read.Err? {
      return Err(read.error);
    }
    var rows := read.value;
    if rows == [] {
      return Ok(true);
    }
    var pos := PosMap(ids);
    var out := rows;
    var k := 0;
    while k < |rows|
      invariant 0 <= k <= |rows| && |out| == |rows|
      invariant forall j :: 0 <= j < k ==> out[j] == Reposition(rows[j], pos, clock(j))
      invariant forall j :: k <= j < |rows| ==> out[j] == rows[j]
    {
      if rows[k].groupId in pos {
        out := out[k := out[k].(position := pos[rows[k].groupId], updatedAt := clock(k))];
      }
      k := k + 1;
    }
    assert out == Reordered(rows, ids, clock);
    disk.AtomicWrite(GroupsTable, out);
    r := Ok(true);
  }

  /** One row of `reorder_group_notes`: a listed member of `gid` takes its position. */
  function RepositionMember(m: MemberRow, gid: string, pos: map<string, nat>): MemberRow {
    if m.groupId == gid && m.noteId in pos then m.(position := pos[m.noteId]) else m
  }

  /** The membership table after `reorder_group_notes(gid, noteIds)`. */
  function ReorderedMembers(rows: seq<MemberRow>, gid: string, noteIds: seq<string>): (r: seq<MemberRow>)
    ensures |r| == |rows|
    ensures forall k :: 0 <= k < |rows| ==>
      r[k].groupId == rows[k].groupId && r[k].noteId == rows[k].noteId && r[k].addedAt == rows[k].addedAt
    ensures forall k :: 0 <= k < |rows| && rows[k].groupId == gid && rows[k].noteId in noteIds ==>
      0 <= r[k].position < |noteIds| && noteIds[r[k].position] == rows[k].noteId
    ensures forall k :: 0 <= k < |rows| && (rows[k].groupId != gid || rows[k].noteId !in noteIds) ==> r[k] == rows[k]
  {
    var pos := PosMap(noteIds);
    seq(|rows|, k requires 0 <= k < |rows| => RepositionMember(rows[k], gid, pos))
  }

  /** The rows before `k` are repositioned, the rest are untouched. */
  predicate MembersRepositioned(out: seq<MemberRow>, rows: seq<MemberRow>, gid: string, pos: map<string, nat>, k: nat) {
    |out| == |rows| && forall j :: 0 <= j < |rows| ==> out[j] == if j < k then RepositionMember(rows[j], gid, pos) else rows[j]
  }

  lemma RepositionMemberStep(out: seq<MemberRow>, rows: seq<MemberRow>, gid: string, pos: map<string, nat>, k: nat)
    requires k < |rows| && MembersRepositioned(out, rows, gid, pos, k)
    ensures rows[k].groupId == gid && rows[k].noteId in pos ==>
      MembersRepositioned(out[k := out[k].(position := pos[rows[k].noteId])], rows, gid, pos, k + 1)
    ensures !(rows[k].groupId == gid && rows[k].noteId in pos) ==> MembersRepositioned(out, rows, gid, pos, k + 1)
  {
  }

  lemma RepositionedMembersDone(out: seq<MemberRow>, rows: seq<MemberRow>, gid: string, noteIds: seq<string>)
    requires MembersRepositioned(out, rows, gid, PosMap(noteIds), |rows|)
    ensures out == ReorderedMembers(rows, gid, noteIds)
  {
    var r := ReorderedMembers(rows, gid, noteIds);
    assert forall j :: 0 <= j < |rows| ==> out[j] == r[j];
  }

  /**
   * `reorder_group_notes(group_id, ordered_note_ids)`: an empty table answers
   * True without a write; otherwise the rows of the group are visited in turn
   * and the result replaces the table.
   */
  method ReorderGroupNotes(disk: Disk<seq<MemberRow>>, gid: string, noteIds: seq<string>) returns (r: Result<bool, string>)
    modifies disk
    ensures var read := ReadSafe(old(disk.files), MembersTable, []);
      if read.Err? then r.Err? && disk.files == old(disk.files)
      else
        r == Ok(true)
        && if read.value == [] then disk.files == old(disk.files)
           else AfterAtomicWrite(disk.files, old(disk.files), MembersTable, ReorderedMembers(read.value, gid, noteIds))
  {
    var read := ReadSafe(disk.files, MembersTable, []);
    if read.Err? {
      return Err(read.error);
    }
    var rows := read.value;
    if rows == [] {
      return Ok(true);
    }
    var pos := PosMap(noteIds);
    var out := rows;
    var k := 0;
    while k < |rows|
      modifies {}
      invariant 0 <= k <= |rows|
      invariant MembersRepositioned(out, rows, gid, pos, k)
    {
      RepositionMemberStep(out, rows, gid, pos, k);
      if rows[k].groupId == gid && rows[k].noteId in pos {
        out := out[k := out[k].(position := pos[rows[k].noteId])];
      }
      k := k + 1;
    }
    RepositionedMembersDone(out, rows, gid, noteIds);
    disk.AtomicWrite(MembersTable, out);
    r := Ok(true);
  }
}
