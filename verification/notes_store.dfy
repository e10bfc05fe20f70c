/**
 * The notes of the lite storage layer (`lite/src/storage/notes.py`): a
 * `notes` table of metadata rows and one text file per note. The table is a
 * frame on a `Files.Disk<seq<NoteRow>>`; the text files live on a
 * `Files.Disk<string>`, where a `Damaged` file is one that does not decode.
 * A Python exception is an `Err`; `uuid4()` and the clock are parameters.
 */
module NotesStore {
  import opened Wrappers
  import opened Strings
  import opened Seqs
  import opened Files
  import opened Parquet
  import GroupsStore

  datatype NoteRow = NoteRow(id: string, title: string, createdAt: int, updatedAt: int)

  /** One search result: `{"id", "title", "snippet"}`. */
  datatype Hit = Hit(id: string, title: string, snippet: string)

  const NotesTable: string := TablePath("notes")

  /** `NOTES_DIR` with the default data directory. */
  const NotesDir: string := "./lite/data/notes"

  function TextPath(id: string): string { NotesDir + "/" + id + ".txt" }

  /** Reading a note's text: a missing file reads as "", one that does not decode raises. */
  function ReadText(texts: map<string, Stored<string>>, id: string): (r: Result<string, string>)
    ensures TextPath(id) !in texts ==> r == Ok("")
    ensures TextPath(id) in texts ==> (r.Ok? <==> texts[TextPath(id)].Good?)
    ensures TextPath(id) in texts && r.Ok? ==> r.value == texts[TextPath(id)].value
  {
    var p := TextPath(id);
    if p !in texts then Ok("")
    else if texts[p].Good? then Ok(texts[p].value)
    else Err("cannot decode " + p)
  }

  // ------------------------------------------------------------- titles

  /** A line Python's `strip()` empties. */
  predicate Blank(s: string) { Trim(s, PySpace) == [] }

  /** Index of the first line that is not blank, or `|lines|`. */
  function FirstNonBlank(lines: seq<string>): (k: nat)
    ensures k <= |lines|
    ensures k < |lines| ==> !Blank(lines[k])
    ensures forall j :: 0 <= j < k ==> Blank(lines[j])
  {
    if lines == [] then 0
    else if !Blank(lines[0]) then 0
    else 1 + FirstNonBlank(lines[1..])
  }

  /** The longest title derived from the text. */
  const TitleLimit: nat := 120

  /** `title and title.strip()`: a title that is present and not blank. */
  predicate GivenTitle(title: Option<string>) {
    title.Some? && !Blank(title.value)
  }

  /** The title derived from a line that is not blank: stripped, then cut to 120 characters. */
  function LineTitle(line: string): (r: string)
    requires !Blank(line)
    ensures r != [] && |r| <= TitleLimit && !PySpace(r[0])
    ensures var t := Trim(line, PySpace); |r| == (if |t| < TitleLimit then |t| else TitleLimit) && r == t[..|r|]
    ensures forall i :: 0 <= i < |r| ==> r[i] in line
  {
    var t := Trim(line, PySpace);
    TrimInside(line, PySpace);
    if |t| < TitleLimit then t else t[..TitleLimit]
  }

  /**
   * `_normalize_title(title, content)`: a non-blank title, stripped; else the
   * first non-blank line of the text, stripped and cut to 120 characters;
   * else "Untitled". The result is never empty, and a derived title is a
   * single line.
   */
  function NormalizeTitle(title: Option<string>, content: string): (r: string)
    ensures r != []
    ensures GivenTitle(title) ==> r == Trim(title.value, PySpace)
    ensures !GivenTitle(title) ==>
      var lines := SplitLines(content);
      var k := FirstNonBlank(lines);
      && (k == |lines| ==> r == "Untitled")
      && (k < |lines| ==> r == LineTitle(lines[k]))
    ensures !GivenTitle(title) ==> |r| <= TitleLimit && forall i :: 0 <= i < |r| ==> !LineBreak(r[i])
  {
    if GivenTitle(title) then Trim(title.value, PySpace)
    else
      var lines := SplitLines(content);
      var k := FirstNonBlank(lines);
      if k < |lines| then LineTitle(lines[k]) else "Untitled"
  }

  /** A given title, once normalized, is kept by every later normalization. */
  lemma NormalizedTitleIsStable(title: Option<string>, content: string, later: string)
    requires GivenTitle(title)
    ensures NormalizeTitle(Some(NormalizeTitle(title, content)), later) == NormalizeTitle(title, content)
  {
    var t := Trim(title.value, PySpace);
    assert t != [] && !PySpace(t[0]) && !PySpace(t[|t| - 1]);
    TrimFixed(t, PySpace);
    assert !Blank(t);
    assert NormalizeTitle(title, content) == t;
    assert NormalizeTitle(Some(t), later) == t;
  }

  /**
   * A derived title is not stable: when the 120-character cut ends in white
   * space, the next normalization (an update that gives no title) strips it
   * and the stored title gets shorter.
   */
  lemma DerivedTitleShrinks(content: string, later: string)
    requires var t := NormalizeTitle(None, content); PySpace(t[|t| - 1])
    ensures var t := NormalizeTitle(None, content);
      && NormalizeTitle(Some(t), later) == Trim(t, PySpace)
      && |NormalizeTitle(Some(t), later)| < |t|
  {
    var t := NormalizeTitle(None, content);
    var lines := SplitLines(content);
    var k := FirstNonBlank(lines);
    assert k < |lines|;
    assert !PySpace(t[0]);
    assert !AllIn(t, PySpace);
    assert GivenTitle(Some(t));
    TrimSlice(t, PySpace);
  }

  // -------------------------------------------------------------- listing

  predicate NewestFirst(a: NoteRow, b: NoteRow) { a.updatedAt >= b.updatedAt }

  /** `list_notes()`: every row, a permutation sorted by `updated_at`, newest first. */
  function ListNotes(files: map<string, Stored<seq<NoteRow>>>): (r: Result<seq<NoteRow>, string>)
    ensures r.Err? <==> ReadSafe(files, NotesTable, []).Err?
    ensures r.Ok? ==> multiset(r.value) == multiset(ReadSafe(files, NotesTable, []).value)
    ensures r.Ok? ==> SortedBy(r.value, NewestFirst)
  {
    match ReadSafe(files, NotesTable, [])
    case Err(e) => Err(e)
    case Ok(rows) =>
      assert TotalPreorder(NewestFirst);
      SortBySorted(rows, NewestFirst);
      Ok(SortBy(rows, NewestFirst))
  }

  // ------------------------------------------------------------- creating

  /**
   * `create_note(title, content)` with the fresh id `id` and clock reading
   * `now`: the text file is written first; then, if the table reads, a row
   * with the normalized title and both timestamps `now` is appended.
   */
  method CreateNote(texts: Disk<string>, notes: Disk<seq<NoteRow>>, title: Option<string>, content: string,
                    id: string, now: int) returns (r: Result<NoteRow, string>)
    modifies texts, notes
    ensures texts.files == old(texts.files)[TextPath(id) := Good(content)]
    ensures var read := ReadSafe(old(notes.files), NotesTable, []);
      if read.Err? then r.Err? && notes.files == old(notes.files)
      else
        r == Ok(NoteRow(id, NormalizeTitle(title, content), now, now))
        && AfterAtomicWrite(notes.files, old(notes.files), NotesTable, read.value + [r.value])
  {
    var t := NormalizeTitle(title, content);
    texts.Write(TextPath(id), content);
    var read := ReadSafe(notes.files, NotesTable, []);
    if read.Err? {
      return Err(read.error);
    }
    var rec := NoteRow(id, t, now, now);
    notes.AtomicWrite(NotesTable, read.value + [rec]);
    r := Ok(rec);
  }

  /** A created note is listed afterwards, with its text readable. */
  lemma CreatedNoteListed(before: map<string, Stored<seq<NoteRow>>>, after: map<string, Stored<seq<NoteRow>>>,
                          rows: seq<NoteRow>, rec: NoteRow, texts: map<string, Stored<string>>, content: string)
    requires AfterAtomicWrite(after, before, NotesTable, rows + [rec])
    ensures ListNotes(after).Ok? && rec in ListNotes(after).value
    ensures ReadText(texts[TextPath(rec.id) := Good(content)], rec.id) == Ok(content)
  {
    ReadAfterWrite(after, before, NotesTable, rows + [rec], []);
    assert rec in multiset(rows + [rec]);
  }

  // ------------------------------------------------------------- updating

  /** Index of the first row with id `id`, or `|rows|`. */
  function FindRow(rows: seq<NoteRow>, id: string): (k: nat)
    ensures k <= |rows|
    ensures k < |rows| ==> rows[k].id == id
    ensures forall j :: 0 <= j < k ==> rows[j].id != id
  {
    if rows == [] then 0
    else if rows[0].id == id then 0
    else 1 + FindRow(rows[1..], id)
  }

  /** The title `update_note` stores: an explicit one verbatim, else the stored one re-normalized. */
  function NewTitle(title: Option<string>, stored: string, text: string): (r: string)
    ensures title.Some? ==> r == title.value
    ensures title.None? ==> r == NormalizeTitle(Some(stored), text)
  {
    if title.Some? then title.value else NormalizeTitle(Some(stored), text)
  }

  /** A stored title that is already stripped and non-blank survives an update without title. */
  lemma CleanTitleKept(stored: string, text: string)
    requires stored != [] && !PySpace(stored[0]) && !PySpace(stored[|stored| - 1])
    ensures NewTitle(None, stored, text) == stored
  {
    TrimFixed(stored, PySpace);
  }

  /** Every row with id `id` takes the new title and `updated_at`; nothing else changes. */
  function Touched(rows: seq<NoteRow>, id: string, title: string, now: int): (r: seq<NoteRow>)
    ensures |r| == |rows|
    ensures forall i :: 0 <= i < |rows| ==> r[i].id == rows[i].id && r[i].createdAt == rows[i].createdAt
    ensures forall i :: 0 <= i < |rows| && rows[i].id == id ==> r[i].title == title && r[i].updatedAt == now
    ensures forall i :: 0 <= i < |rows| && rows[i].id != id ==> r[i] == rows[i]
  {
    seq(|rows|, i requires 0 <= i < |rows| =>
      if rows[i].id == id then rows[i].(title := title, updatedAt := now) else rows[i])
  }

  /**
   * `update_note(id, title, content)`: an unknown id raises and writes
   * nothing. With no table file the safe read gives a frame without columns,
   * and looking up its `id` column raises `KeyError` instead. New content is written to the text file; without it the text
   * file is read (missing reads as ""). The matching rows take the new title
   * and `updated_at = now`, the table is replaced, and the first matching row
   * is returned.
   */
  method UpdateNote(texts: Disk<string>, notes: Disk<seq<NoteRow>>, id: string, title: Option<string>,
                    content: Option<string>, now: int) returns (r: Result<NoteRow, string>)
    modifies texts, notes
    ensures var read := ReadSafe(old(notes.files), NotesTable, []);
      var k := if read.Ok? then FindRow(read.value, id) else 0;
      if read.Err? then r.Err? && texts.files == old(texts.files) && notes.files == old(notes.files)
      else if NotesTable !in old(notes.files) then
        r == Err("KeyError: 'id'") && texts.files == old(texts.files) && notes.files == old(notes.files)
      else if k == |read.value| then
        r == Err("Note not found: " + id) && texts.files == old(texts.files) && notes.files == old(notes.files)
      else if content.None? && ReadText(old(texts.files), id).Err? then
        r.Err? && texts.files == old(texts.files) && notes.files == old(notes.files)
      else
        var text := if content.Some? then content.value else ReadText(old(texts.files), id).value;
        var t := NewTitle(title, read.value[k].title, text);
        && texts.files == (if content.Some? then old(texts.files)[TextPath(id) := Good(content.value)] else old(texts.files))
        && AfterAtomicWrite(notes.files, old(notes.files), NotesTable, Touched(read.value, id, t, now))
        && r == Ok(read.value[k].(title := t, updatedAt := now))
  {
    var read := ReadSafe(notes.files, NotesTable, []);
    if read.Err? {
      return Err(read.error);
    }
    if NotesTable !in notes.files {
      return Err("KeyError: 'id'");
    }
    var rows := read.value;
    var k := FindRow(rows, id);
    if k == |rows| {
      return Err("Note not found: " + id);
    }
    var text: string;
    if content.Some? {
      texts.Write(TextPath(id), content.value);
      text := content.value;
    } else {
      var got := ReadText(texts.files, id);
      if got.Err? {
        return Err(got.error);
      }
      text := got.value;
    }
    var t := NewTitle(title, rows[k].title, text);
    var updated := Touched(rows, id, t, now);
    notes.AtomicWrite(NotesTable, updated);
    r := Ok(updated[k]);
  }

  // ------------------------------------------------------------- deleting

  function NotNote(id: string): NoteRow -> bool { (n: NoteRow) => n.id != id }
  function NotMemberNote(id: string): GroupsStore.MemberRow -> bool { (m: GroupsStore.MemberRow) => m.noteId != id }

  /**
   * `delete_note(id)`: the text file is removed if present, a non-empty notes
   * table loses the note's rows, a non-empty membership table loses its
   * memberships, and the answer is True. A missing note is no error; a table
   * that cannot be read stops the operation with one.
   */
  method DeleteNote(texts: Disk<string>, notes: Disk<seq<NoteRow>>, members: Disk<seq<GroupsStore.MemberRow>>,
                    id: string) returns (r: Result<bool, string>)
    modifies texts, notes, members
    ensures texts.files == old(texts.files) - {TextPath(id)}
    ensures var n := ReadSafe(old(notes.files), NotesTable, []);
      var m := ReadSafe(old(members.files), GroupsStore.MembersTable, []);
      && (n.Err? ==> r.Err? && notes.files == old(notes.files) && members.files == old(members.files))
      && (n.Ok? ==>
            if n.value == [] then notes.files == old(notes.files)
            else AfterAtomicWrite(notes.files, old(notes.files), NotesTable, Where(n.value, NotNote(id))))
      && (n.Ok? && m.Err? ==> r.Err? && members.files == old(members.files))
      && (n.Ok? && m.Ok? ==>
            r == Ok(true)
            && if m.value == [] then members.files == old(members.files)
               else AfterAtomicWrite(members.files, old(members.files), GroupsStore.MembersTable,
                                     Where(m.value, NotMemberNote(id))))
  {
    if TextPath(id) in texts.files {
      texts.Remove(TextPath(id));
    }
    var n := ReadSafe(notes.files, NotesTable, []);
    if n.Err? {
      return Err(n.error);
    }
    if n.value != [] {
      notes.AtomicWrite(NotesTable, Where(n.value, NotNote(id)));
    }
    var m := ReadSafe(members.files, GroupsStore.MembersTable, []);
    if m.Err? {
      return Err(m.error);
    }
    if m.value != [] {
      members.AtomicWrite(GroupsStore.MembersTable, Where(m.value, NotMemberNote(id)));
    }
    r := Ok(true);
  }

  // ------------------------------------------------------------- searching

  /** `q.lower().strip()`. */
  function Query(q: string): string { Trim(LowerStr(q), PySpace) }

  /** Python's `needle in hay`, as a match position. */
  predicate Contains(hay: string, needle: string) {
    exists k :: 0 <= k <= |hay| && MatchAt(hay, needle, k)
  }

  /** `hay.find(needle)` is non-negative exactly when `needle in hay`. */
  lemma FindIffContains(hay: string, needle: string)
    ensures FirstMatchFrom(hay, needle, 0) >= 0 <==> Contains(hay, needle)
  {
    if Contains(hay, needle) {
      var k :| 0 <= k <= |hay| && MatchAt(hay, needle, k);
      assert FirstMatchFrom(hay, needle, 0) != -1;
    }
  }

  /** `s.replace("\n", " ")`. */
  function NewlinesToSpaces(s: string): (r: string)
    ensures |r| == |s|
    ensures forall i :: 0 <= i < |s| ==> r[i] == (if s[i] == '\n' then ' ' else s[i])
  {
    seq(|s|, i requires 0 <= i < |s| => if s[i] == '\n' then ' ' else s[i])
  }

  /**
   * The snippet for a hit whose content match is at `idx` (-1 for a match in
   * the title only): up to 40 characters before the match and 160 from it,
   * newlines turned into spaces.
   */
  function Snippet(content: string, idx: int): (r: string)
    requires -1 <= idx <= |content|
    ensures var start := if idx - 40 > 0 then idx - 40 else 0;
      var end := if idx + 160 < |content| then idx + 160 else |content|;
      |r| == end - start && r == NewlinesToSpaces(content[start..end])
    ensures |r| <= 200 && '\n' !in r
  {
    var start := if idx - 40 > 0 then idx - 40 else 0;
    var end := if idx + 160 < |content| then idx + 160 else |content|;
    NewlinesToSpaces(content[start..end])
  }

  /** The hit a row yields for query `ql` and the note's text, if any. */
  function HitFor(ql: string, row: NoteRow, content: string): (r: Option<Hit>)
    ensures r.Some? <==> Contains(LowerStr(content), ql) || Contains(LowerStr(row.title), ql)
    ensures r.Some? ==> r.value.id == row.id && r.value.title == row.title
  {
    FindIffContains(LowerStr(content), ql);
    FindIffContains(LowerStr(row.title), ql);
    var idx := FirstMatchFrom(LowerStr(content), ql, 0);
    if idx >= 0 || FirstMatchFrom(LowerStr(row.title), ql, 0) >= 0 then
      Some(Hit(row.id, row.title, Snippet(content, idx)))
    else None
  }

  /** The hits of `rows` in order; the first text that does not decode makes the whole search fail. */
  function Hits(ql: string, rows: seq<NoteRow>, texts: map<string, Stored<string>>): (r: Result<seq<Hit>, string>)
    ensures r.Ok? ==> |r.value| <= |rows|
  {
    if rows == [] then Ok([])
    else
      var n := |rows| - 1;
      match Hits(ql, rows[..n], texts)
      case Err(e) => Err(e)
      case Ok(found) =>
        match ReadText(texts, rows[n].id)
        case Err(e) => Err(e)
        case Ok(content) =>
          match HitFor(ql, rows[n], content)
          case None => Ok(found)
          case Some(h) => Ok(found + [h])
  }

  /**
   * A successful search read every row's text; each hit comes from a row
   * whose text or title contains the query, and every such row yields its hit.
   */
  lemma {:induction false} HitsExact(ql: string, rows: seq<NoteRow>, texts: map<string, Stored<string>>)
    requires Hits(ql, rows, texts).Ok?
    ensures forall row :: row in rows ==> ReadText(texts, row.id).Ok?
    ensures forall h :: h in Hits(ql, rows, texts).value ==>
      exists row :: row in rows && HitFor(ql, row, ReadText(texts, row.id).value) == Some(h)
    ensures forall row :: row in rows && HitFor(ql, row, ReadText(texts, row.id).value).Some? ==>
      HitFor(ql, row, ReadText(texts, row.id).value).value in Hits(ql, rows, texts).value
  {
    if rows != [] {
      var n := |rows| - 1;
      assert forall row :: row in rows <==> row in rows[..n] || row == rows[n];
      HitsExact(ql, rows[..n], texts);
    }
  }

  /** A failure in a prefix of the rows is the failure of the whole search. */
  lemma {:induction false} HitsFailEarly(ql: string, rows: seq<NoteRow>, texts: map<string, Stored<string>>, k: nat)
    requires k <= |rows| && Hits(ql, rows[..k], texts).Err?
    ensures Hits(ql, rows, texts) == Hits(ql, rows[..k], texts)
    decreases |rows| - k
  {
    if k < |rows| {
      assert rows[..k + 1][..k] == rows[..k];
      HitsFailEarly(ql, rows, texts, k + 1);
    } else {
      assert rows[..k] == rows;
    }
  }

  predicate InIds(ids: seq<string>, n: NoteRow) { n.id in ids }

  /** `df[df["id"].isin(note_ids)]` when `note_ids` is given and non-empty, else every row. */
  function Selected(rows: seq<NoteRow>, noteIds: Option<seq<string>>): (r: seq<NoteRow>)
    ensures forall n :: n in r <==> n in rows && (noteIds.None? || noteIds.value == [] || n.id in noteIds.value)
  {
    if noteIds.Some? && noteIds.value != [] then Where(rows, (n: NoteRow) => InIds(noteIds.value, n)) else rows
  }

  /**
   * `search_keyword(q, note_ids)`: a blank query finds nothing without
   * reading; otherwise the selected rows are visited in order and each one
   * whose text or title contains the query, ignoring case, yields a hit.
   */
  method SearchKeyword(texts: Disk<string>, notes: Disk<seq<NoteRow>>, q: string,
                       noteIds: Option<seq<string>>) returns (r: Result<seq<Hit>, string>)
    ensures Query(q) == [] ==> r == Ok([])
    ensures Query(q) != [] ==>
      var read := ReadSafe(notes.files, NotesTable, []);
      (read.Err? ==> r.Err?)
      && (read.Ok? ==> r == Hits(Query(q), Selected(read.value, noteIds), texts.files))
  {
    var ql := Query(q);
    if ql == [] {
      return Ok([]);
    }
    var read := ReadSafe(notes.files, NotesTable, []);
    if read.Err? {
      return Err(read.error);
    }
    if read.value == [] {
      return Ok([]);
    }
    r := CollectHits(ql, Selected(read.value, noteIds), texts);
  }

  /** The loop of `search_keyword`: each row in turn, reading its text and keeping its hit. */
  method CollectHits(ql: string, rows: seq<NoteRow>, texts: Disk<string>) returns (r: Result<seq<Hit>, string>)
    ensures r == Hits(ql, rows, texts.files)
  {
    var out: seq<Hit> := [];
    var k := 0;
    while k < |rows|
      invariant 0 <= k <= |rows|
      invariant Hits(ql, rows[..k], texts.files) == Ok(out)
    {
      assert rows[..k + 1][..k] == rows[..k];
      var got := ReadText(texts.files, rows[k].id);
      if got.Err? {
        HitsFailEarly(ql, rows, texts.files, k + 1);
        return Err(got.error);
      }
      var h := HitFor(ql, rows[k], got.value);
      if h.Some? {
        out := out + [h.value];
      }
      k := k + 1;
    }
    assert rows[..k] == rows;
    r := Ok(out);
  }
}
