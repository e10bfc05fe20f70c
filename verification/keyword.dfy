/**
 * The client-side keyword index of the renderer (`electron/renderer/keyword.js`):
 * a tokenizer, per-note token-frequency maps, incremental patching after saves,
 * scoring by term frequency plus a recency boost, filtered and sorted searches,
 * and snippet windows around the first hit.
 *
 * The module-level `idx.notes` Map becomes the class `KeywordIndex`, whose
 * `order` field keeps the Map's insertion order (the order `searchAll` visits).
 * `Date.now()` is the parameter `now`; fetch callbacks are replies passed in.
 */
module Keyword {
  import opened Wrappers
  import opened Strings
  import opened Seqs

  // ------------------------------------------------------------- tokenizer

  /** The character class `[a-z0-9_]`. */
  predicate WordChar(c: char) {
    ('a' <= c <= 'z') || ('0' <= c <= '9') || c == '_'
  }

  predicate AllWord(s: string) {
    forall i :: 0 <= i < |s| ==> WordChar(s[i])
  }

  /** Length of the run of word characters at the front of `s`. */
  function RunLength(s: string): (n: nat)
    ensures n <= |s| && AllWord(s[..n])
    ensures n < |s| ==> !WordChar(s[n])
  {
    if s != [] && WordChar(s[0]) then 1 + RunLength(s[1..]) else 0
  }

  /** The matches of `/[a-z0-9_]+/g`, left to right: the maximal runs of word characters. */
  function Runs(s: string): (ts: seq<string>)
    ensures forall i :: 0 <= i < |ts| ==> ts[i] != [] && AllWord(ts[i])
    decreases |s|
  {
    if s == [] then []
    else if !WordChar(s[0]) then Runs(s[1..])
    else
      var n := RunLength(s);
      [s[..n]] + Runs(s[n..])
  }

  /** `tokenize(text)`: lower-case, then take the maximal runs (`match(...) || []`). */
  function Tokenize(text: string): seq<string> {
    Runs(LowerStr(text))
  }

  /** A string without word characters has no tokens, and only such a string. */
  lemma {:induction false} RunsEmpty(s: string)
    ensures Runs(s) == [] <==> forall i :: 0 <= i < |s| ==> !WordChar(s[i])
    decreases |s|
  {
    if s != [] && !WordChar(s[0]) {
      RunsEmpty(s[1..]);
      assert forall i :: 1 <= i < |s| ==> s[i] == s[1..][i - 1];
    }
  }

  lemma {:induction false} RunLengthStops(x: string, z: string)
    requires z != [] && !WordChar(z[0])
    ensures RunLength(x + z) == RunLength(x)
    decreases |x|
  {
    if x == [] {
      assert x + z == z;
    } else if WordChar(x[0]) {
      assert (x + z)[1..] == x[1..] + z;
      RunLengthStops(x[1..], z);
    }
  }

  /** A separator splits the token stream: tokens never straddle a non-word character. */
  lemma {:induction false} RunsSeparator(x: string, c: char, y: string)
    requires !WordChar(c)
    ensures Runs(x + [c] + y) == Runs(x) + Runs(y)
    decreases |x|
  {
    var s := x + [c] + y;
    if x == [] {
      assert s[1..] == y;
    } else if !WordChar(x[0]) {
      assert s[1..] == x[1..] + [c] + y;
      RunsSeparator(x[1..], c, y);
    } else {
      RunLengthStops(x, [c] + y);
      assert s == x + ([c] + y);
      var n := RunLength(x);
      assert s[..n] == x[..n];
      assert s[n..] == x[n..] + [c] + y;
      RunsSeparator(x[n..], c, y);
    }
  }

  lemma {:induction false} RunLengthAll(w: string)
    requires AllWord(w)
    ensures RunLength(w) == |w|
  {
    if w != [] {
      assert AllWord(w[1..]);
      RunLengthAll(w[1..]);
    }
  }

  /** A non-empty run of word characters is exactly one token. */
  lemma RunsSingle(w: string)
    requires w != [] && AllWord(w)
    ensures Runs(w) == [w]
  {
    RunLengthAll(w);
    assert WordChar(w[0]);
    assert w[..|w|] == w && w[|w|..] == [];
  }

  // ------------------------------------------------------ frequency maps

  /** Occurrences of `t` in `ts`. */
  function Count(ts: seq<string>, t: string): nat {
    if ts == [] then 0 else Count(ts[..|ts| - 1], t) + (if ts[|ts| - 1] == t then 1 else 0)
  }

  /** The map `tokens` built by `tokens.set(t, (tokens.get(t) || 0) + 1)` for each token in turn. */
  function Freq(ts: seq<string>): map<string, nat> {
    if ts == [] then map[]
    else
      var m := Freq(ts[..|ts| - 1]);
      var t := ts[|ts| - 1];
      m[t := (if t in m then m[t] else 0) + 1]
  }

  /** The counting loop of `addOrUpdate`. */
  method CountTokens(ts: seq<string>) returns (m: map<string, nat>)
    ensures m == Freq(ts)
  {
    m := map[];
    var i := 0;
    while i < |ts|
      invariant 0 <= i <= |ts|
      invariant m == Freq(ts[..i])
    {
      var t := ts[i];
      assert ts[..i + 1][..i] == ts[..i];
      m := m[t := (if t in m then m[t] else 0) + 1];
      i := i + 1;
    }
    assert ts[..i] == ts;
  }

  /** The keys of the frequency map are the tokens, and each maps to its number of occurrences. */
  lemma {:induction false} FreqCounts(ts: seq<string>, t: string)
    ensures t in Freq(ts) <==> t in ts
    ensures t in Freq(ts) ==> Freq(ts)[t] == Count(ts, t)
    ensures t !in Freq(ts) ==> Count(ts, t) == 0
  {
    if ts != [] {
      var p := ts[..|ts| - 1];
      FreqCounts(p, t);
      assert ts == p + [ts[|ts| - 1]];
    }
  }

  ghost function Pick(m: map<string, nat>): string
    requires m != map[]
  {
    var k :| k in m; k
  }

  /** The sum of the counts held in a map. */
  ghost function Total(m: map<string, nat>): nat
    decreases |m|
  {
    if m == map[] then 0
    else
      var k := Pick(m);
      assert |(m - {k}).Keys| < |m.Keys| by { assert (m - {k}).Keys == m.Keys - {k}; }
      m[k] + Total(m - {k})
  }

  lemma {:induction false} TotalRemove(m: map<string, nat>, k: string)
    requires k in m
    ensures Total(m) == m[k] + Total(m - {k})
    decreases |m|
  {
    var j := Pick(m);
    if j != k {
      assert (m - {j}).Keys == m.Keys - {j};
      assert (m - {k}).Keys == m.Keys - {k};
      TotalRemove(m - {j}, k);
      TotalRemove(m - {k}, j);
      assert m - {j} - {k} == m - {k} - {j};
    }
  }

  /** The counts of a frequency map add up to the number of tokens. */
  lemma {:induction false} FreqTotal(ts: seq<string>)
    ensures Total(Freq(ts)) == |ts|
  {
    if ts != [] {
      var p := ts[..|ts| - 1];
      var t := ts[|ts| - 1];
      var m := Freq(p);
      var m' := Freq(ts);
      FreqTotal(p);
      TotalRemove(m', t);
      assert m' - {t} == m - {t};
      if t in m {
        TotalRemove(m, t);
      } else {
        assert m - {t} == m;
      }
    }
  }

  // ------------------------------------------------------------ entries

  /** One value of `idx.notes`: `{ title, updated_at, tokens, text }`. */
  datatype Entry = Entry(title: string, updatedAt: int, tokens: map<string, nat>, text: string)

  /** `updated_at || Date.now()`: a missing or zero stamp is replaced by the clock. */
  function Stamp(t: Option<int>, now: int): int {
    if t.Some? && t.value != 0 then t.value else now
  }

  /** The entry `addOrUpdate(id, title, content, updated_at)` stores. */
  function NewEntry(title: string, content: string, updatedAt: Option<int>, now: int): Entry {
    Entry(title, Stamp(updatedAt, now), Freq(Tokenize(title + " " + content)), content)
  }

  /**
   * What `addOrUpdate` stores: the counts cover the tokens of `title + ' ' + content`
   * and add up to their number, the text is the content alone, and a falsy stamp
   * becomes the clock value.
   */
  lemma EntryCounts(title: string, content: string, updatedAt: Option<int>, now: int, t: string)
    ensures var e := NewEntry(title, content, updatedAt, now);
      && Total(e.tokens) == |Tokenize(title + " " + content)|
      && (t in e.tokens <==> t in Tokenize(title + " " + content))
      && (t in e.tokens ==> e.tokens[t] == Count(Tokenize(title + " " + content), t))
      && e.text == content
      && (updatedAt == None || updatedAt == Some(0) ==> e.updatedAt == now)
  {
    FreqTotal(Tokenize(title + " " + content));
    FreqCounts(Tokenize(title + " " + content), t);
  }

  // ------------------------------------------------------------ scoring

  const DayMs: int := 24 * 3600 * 1000
  /** The recency window: 14 days in milliseconds. */
  const WindowMs: int := 14 * DayMs

  /** `1 - Math.min(1, ageMs / 14 days)` with `ageMs = Math.max(0, now - updated_at)`. */
  function Recency(updatedAt: int, now: int): real {
    var age := if now - updatedAt > 0 then now - updatedAt else 0;
    var frac := age as real / WindowMs as real;
    1.0 - (if frac < 1.0 then frac else 1.0)
  }

  /** Sum of the stored frequencies of the query tokens, duplicates counted. */
  function TermFreq(tokens: map<string, nat>, q: seq<string>): nat {
    if q == [] then 0
    else
      var t := q[|q| - 1];
      TermFreq(tokens, q[..|q| - 1]) + (if t in tokens then tokens[t] else 0)
  }

  function Score(e: Entry, q: seq<string>, now: int): real {
    TermFreq(e.tokens, q) as real + 0.25 * Recency(e.updatedAt, now)
  }

  /** `scoreNote(meta, qTokens)`: the accumulating loop over the query tokens. */
  method ScoreNote(e: Entry, q: seq<string>, now: int) returns (score: real)
    ensures score == Score(e, q, now)
  {
    var tf := 0;
    var i := 0;
    while i < |q|
      invariant 0 <= i <= |q|
      invariant tf == TermFreq(e.tokens, q[..i])
    {
      assert q[..i + 1][..i] == q[..i];
      tf := tf + (if q[i] in e.tokens then e.tokens[q[i]] else 0);
      i := i + 1;
    }
    assert q[..i] == q;
    var age := if now - e.updatedAt > 0 then now - e.updatedAt else 0;
    var frac := age as real / WindowMs as real;
    var recency := 1.0 - (if frac < 1.0 then frac else 1.0);
    score := tf as real + 0.25 * recency;
  }

  /** The recency boost lies in [0, 1], is 0 from 14 days of age on, and 1 for a stamp not in the past. */
  lemma RecencyBounds(updatedAt: int, now: int)
    ensures 0.0 <= Recency(updatedAt, now) <= 1.0
    ensures now - updatedAt >= WindowMs ==> Recency(updatedAt, now) == 0.0
    ensures now <= updatedAt ==> Recency(updatedAt, now) == 1.0
    ensures now - updatedAt < WindowMs ==> Recency(updatedAt, now) > 0.0
  {
  }

  /** A query token that occurs in the note gives it a positive score. */
  lemma {:induction false} MatchScoresPositive(e: Entry, q: seq<string>, now: int, k: nat)
    requires k < |q| && q[k] in e.tokens && e.tokens[q[k]] > 0
    ensures TermFreq(e.tokens, q) >= e.tokens[q[k]]
    ensures Score(e, q, now) > 0.0
  {
    RecencyBounds(e.updatedAt, now);
    TermFreqAtLeast(e.tokens, q, k);
  }

  lemma {:induction false} TermFreqAtLeast(tokens: map<string, nat>, q: seq<string>, k: nat)
    requires k < |q| && q[k] in tokens
    ensures TermFreq(tokens, q) >= tokens[q[k]]
  {
    if k < |q| - 1 {
      TermFreqAtLeast(tokens, q[..|q| - 1], k);
    }
  }

  /** Of two notes with equal term frequency, one updated within 14 days outranks one older than that. */
  lemma RecencyRanks(a: Entry, b: Entry, q: seq<string>, now: int)
    requires TermFreq(a.tokens, q) == TermFreq(b.tokens, q)
    requires now - a.updatedAt < WindowMs && now - b.updatedAt >= WindowMs
    ensures Score(a, q, now) > Score(b, q, now)
  {
    RecencyBounds(a.updatedAt, now);
    RecencyBounds(b.updatedAt, now);
  }

  // ------------------------------------------------------------ snippets

  function Min(a: int, b: int): int { if a < b then a else b }
  function Max(a: int, b: int): int { if a < b then b else a }

  /** `makeSnippet(text, q)`. */
  function MakeSnippet(text: string, q: string): string {
    var idx := IndexOf(LowerStr(text), LowerStr(q), 0);
    if idx < 0 then
      text[..Min(120, |text|)] + (if |text| > 120 then "…" else "")
    else
      var start := Max(0, idx - 40);
      var end := Min(|text|, idx + |q| + 80);
      (if start > 0 then "…" else "") + text[start..idx] + "<mark>" + text[idx..idx + |q|] + "</mark>"
        + text[idx + |q|..end] + (if end < |text| then "…" else "")
  }

  /**
   * Without a case-insensitive occurrence the snippet is the whole text when it
   * has at most 120 characters and otherwise its first 120 followed by '…'.
   */
  lemma SnippetWithoutMatch(text: string, q: string)
    requires IndexOf(LowerStr(text), LowerStr(q), 0) < 0
    ensures MakeSnippet(text, q) == if |text| <= 120 then text else text[..120] + "…"
  {
    assert |text| <= 120 ==> text[..Min(120, |text|)] == text;
  }

  /**
   * With an occurrence, the marked span is the first one and equals the query
   * up to case; at most 40 characters precede it and at most 80 follow it, and
   * a '…' stands at either end exactly when text was cut off there.
   */
  lemma SnippetAtMatch(text: string, q: string)
    requires IndexOf(LowerStr(text), LowerStr(q), 0) >= 0
    ensures var i := IndexOf(LowerStr(text), LowerStr(q), 0);
      && i + |q| <= |text|
      && LowerStr(text[i..i + |q|]) == LowerStr(q)
      && (forall j :: 0 <= j < i ==> !MatchAt(LowerStr(text), LowerStr(q), j))
      && MakeSnippet(text, q) ==
           (if i > 40 then "…" else "") + text[Max(0, i - 40)..i]
           + "<mark>" + text[i..i + |q|] + "</mark>"
           + text[i + |q|..Min(|text|, i + |q| + 80)]
           + (if i + |q| + 80 < |text| then "…" else "")
  {
    var lt, lq := LowerStr(text), LowerStr(q);
    var i := IndexOf(lt, lq, 0);
    assert MatchAt(lt, lq, i);
    assert lt[i..i + |q|] == lq;
    assert LowerStr(text[i..i + |q|]) == lt[i..i + |q|];
  }

  // ------------------------------------------------------------ searching

  /** One search result: `{ noteId, title, snippet, score }`. */
  datatype Hit = Hit(noteId: string, title: string, snippet: string, score: real)

  /** The comparator of `out.sort((a, b) => b.score - a.score)`: higher scores first. */
  predicate HigherScore(a: Hit, b: Hit) {
    a.score >= b.score
  }

  lemma HigherScoreIsPreorder()
    ensures TotalPreorder(HigherScore)
  {
  }

  /** The hit `searchIds` pushes for `id`, if any. */
  function HitFor(notes: map<string, Entry>, id: string, qt: seq<string>, now: int): seq<Hit>
    requires qt != []
  {
    if id in notes && Score(notes[id], qt, now) > 0.0 then
      [Hit(id, notes[id].title, MakeSnippet(notes[id].text, qt[0]), Score(notes[id], qt, now))]
    else []
  }

  /** The unsorted `out` list after visiting `ids` in order. */
  function Candidates(notes: map<string, Entry>, ids: seq<string>, qt: seq<string>, now: int): seq<Hit>
    requires qt != []
  {
    if ids == [] then []
    else Candidates(notes, ids[..|ids| - 1], qt, now) + HitFor(notes, ids[|ids| - 1], qt, now)
  }

  /**
   * Candidates are exactly the listed ids that are indexed and score above zero,
   * each with its title, score and snippet.
   */
  lemma {:induction false} CandidatesExact(notes: map<string, Entry>, ids: seq<string>, qt: seq<string>, now: int, id: string)
    requires qt != []
    ensures (exists h :: h in Candidates(notes, ids, qt, now) && h.noteId == id)
        <==> id in ids && id in notes && Score(notes[id], qt, now) > 0.0
    ensures forall h :: h in Candidates(notes, ids, qt, now) ==>
      && h.noteId in ids && h.noteId in notes
      && h.score == Score(notes[h.noteId], qt, now) > 0.0
      && h.title == notes[h.noteId].title
      && h.snippet == MakeSnippet(notes[h.noteId].text, qt[0])
  {
    if ids != [] {
      var p := ids[..|ids| - 1];
      CandidatesExact(notes, p, qt, now, id);
      assert ids == p + [ids[|ids| - 1]];
      var c := Candidates(notes, ids, qt, now);
      if id in ids && id in notes && Score(notes[id], qt, now) > 0.0 {
        if id !in p {
          assert ids[|ids| - 1] == id;
          assert c[|c| - 1].noteId == id;
        }
      }
    }
  }

  /** A note none of whose tokens match is still a candidate while it is younger than 14 days. */
  lemma UnmatchedRecentNoteReturned(notes: map<string, Entry>, ids: seq<string>, qt: seq<string>, now: int, id: string)
    requires qt != [] && id in ids && id in notes
    requires TermFreq(notes[id].tokens, qt) == 0 && now - notes[id].updatedAt < WindowMs
    ensures exists h :: h in Candidates(notes, ids, qt, now) && h.noteId == id
  {
    RecencyBounds(notes[id].updatedAt, now);
    CandidatesExact(notes, ids, qt, now, id);
  }

  /** The entries `buildIndex` produces from the listed notes and the fetch replies. */
  datatype Listed = Listed(id: string, title: Option<string>)
  datatype NoteData = NoteData(title: Option<string>, content: Option<string>, updatedAt: Option<int>)

  /** `r.data.title || n.title || 'Untitled'`. */
  function FallbackTitle(fetched: Option<string>, listed: Option<string>): (t: string)
    ensures t != ""
  {
    if Truthy(fetched) then fetched.value else if Truthy(listed) then listed.value else "Untitled"
  }

  function EntryOf(n: Listed, d: NoteData, now: int): Entry {
    NewEntry(FallbackTitle(d.title, n.title), if Truthy(d.content) then d.content.value else "",
             Some(Stamp(d.updatedAt, now)), now)
  }

  function Built(list: seq<Listed>, replies: seq<Result<NoteData, string>>, now: int): map<string, Entry>
    requires |replies| == |list|
  {
    if list == [] then map[]
    else
      var n := |list| - 1;
      var m := Built(list[..n], replies[..n], now);
      if replies[n].Ok? then m[list[n].id := EntryOf(list[n], replies[n].value, now)] else m
  }

  /** After `buildIndex` the index holds exactly the listed notes whose fetch succeeded. */
  lemma {:induction false} BuiltKeys(list: seq<Listed>, replies: seq<Result<NoteData, string>>, now: int, id: string)
    requires |replies| == |list|
    ensures id in Built(list, replies, now) <==> exists i :: 0 <= i < |list| && list[i].id == id && replies[i].Ok?
  {
    if list != [] {
      var n := |list| - 1;
      BuiltKeys(list[..n], replies[..n], now, id);
      if id in Built(list[..n], replies[..n], now) {
        var i :| 0 <= i < n && list[..n][i].id == id && replies[..n][i].Ok?;
        assert list[i].id == id && replies[i].Ok?;
      }
      if exists i :: 0 <= i < |list| && list[i].id == id && replies[i].Ok? {
        var i :| 0 <= i < |list| && list[i].id == id && replies[i].Ok?;
        if i < n {
          assert list[..n][i].id == id && replies[..n][i].Ok?;
        }
      }
    }
  }

  /**
   * The key order `buildIndex` leaves: the ids of the successful fetches in
   * list order, an id that is fetched again keeping its first place.
   */
  function BuiltOrder(list: seq<Listed>, replies: seq<Result<NoteData, string>>): (r: seq<string>)
    requires |replies| == |list|
    ensures Distinct(r)
  {
    if list == [] then []
    else
      var n := |list| - 1;
      var o := BuiltOrder(list[..n], replies[..n]);
      if replies[n].Ok? && list[n].id !in o then o + [list[n].id] else o
  }

  /** The key order lists exactly the keys of the rebuilt index. */
  lemma {:induction false} BuiltOrderKeys(list: seq<Listed>, replies: seq<Result<NoteData, string>>, now: int)
    requires |replies| == |list|
    ensures forall id :: id in BuiltOrder(list, replies) <==> id in Built(list, replies, now)
  {
    if list != [] {
      var n := |list| - 1;
      BuiltOrderKeys(list[..n], replies[..n], now);
    }
  }

  /** One more listed note extends the rebuilt index and its key order by at most that note. */
  lemma BuildStep(list: seq<Listed>, replies: seq<Result<NoteData, string>>, now: int, i: nat)
    requires |replies| == |list| && i < |list|
    ensures var m, o := Built(list[..i], replies[..i], now), BuiltOrder(list[..i], replies[..i]);
      && Built(list[..i + 1], replies[..i + 1], now)
         == (if replies[i].Ok? then m[list[i].id := EntryOf(list[i], replies[i].value, now)] else m)
      && BuiltOrder(list[..i + 1], replies[..i + 1])
         == (if replies[i].Ok? && list[i].id !in o then o + [list[i].id] else o)
  {
    assert list[..i + 1][..i] == list[..i] && replies[..i + 1][..i] == replies[..i];
  }

  /** Each entry comes from the last successful fetch of its id. */
  lemma {:induction false} BuiltLast(list: seq<Listed>, replies: seq<Result<NoteData, string>>, now: int, i: nat)
    requires |replies| == |list| && i < |list| && replies[i].Ok?
    requires forall j :: i < j < |list| && list[j].id == list[i].id ==> replies[j].Err?
    ensures list[i].id in Built(list, replies, now)
    ensures Built(list, replies, now)[list[i].id] == EntryOf(list[i], replies[i].value, now)
  {
    var n := |list| - 1;
    if i < n {
      assert list[..n][i] == list[i] && replies[..n][i] == replies[i];
      assert forall j :: i < j < n ==> list[..n][j] == list[j] && replies[..n][j] == replies[j];
      BuiltLast(list[..n], replies[..n], now, i);
    }
  }

  /**
   * A `buildIndex` call waiting at its `await`: the note list it iterates (the
   * array `state.notes` held when the call began, since a refresh assigns a new
   * array) and the position whose fetch it awaits.
   */
  datatype Rebuild = Rebuild(list: seq<Listed>, next: nat)

  /** Every pending rebuild awaits a note of its list. */
  predicate Awaiting(rebuilds: seq<Rebuild>) {
    forall b :: 0 <= b < |rebuilds| ==> rebuilds[b].next < |rebuilds[b].list|
  }

  /** The pending rebuilds after rebuild `b` got its reply: it moves on, or ends after its last note. */
  function Stepped(rebuilds: seq<Rebuild>, b: nat): (r: seq<Rebuild>)
    requires Awaiting(rebuilds) && b < |rebuilds|
    ensures Awaiting(r)
    ensures rebuilds[b].next + 1 == |rebuilds[b].list| ==> r == rebuilds[..b] + rebuilds[b + 1..]
    ensures rebuilds[b].next + 1 < |rebuilds[b].list| ==>
      |r| == |rebuilds| && r[b] == Rebuild(rebuilds[b].list, rebuilds[b].next + 1)
      && forall c :: 0 <= c < |r| && c != b ==> r[c] == rebuilds[c]
  {
    var rb := rebuilds[b];
    if rb.next + 1 == |rb.list| then rebuilds[..b] + rebuilds[b + 1..]
    else rebuilds[b := Rebuild(rb.list, rb.next + 1)]
  }

  /** The reply to the newest rebuild moves it on, or retires it after its last note. */
  lemma SteppedLast(older: seq<Rebuild>, list: seq<Listed>, i: nat)
    requires Awaiting(older) && i < |list|
    ensures Awaiting(older + [Rebuild(list, i)])
    ensures (older + [Rebuild(list, i)])[|older|] == Rebuild(list, i)
    ensures Stepped(older + [Rebuild(list, i)], |older|)
      == older + (if i + 1 < |list| then [Rebuild(list, i + 1)] else [])
  {
    var all := older + [Rebuild(list, i)];
    if i + 1 == |list| {
      assert all[..|older|] == older && all[|older| + 1..] == [];
    } else {
      assert all[|older| := Rebuild(list, i + 1)] == older + [Rebuild(list, i + 1)];
    }
  }

  // ------------------------------------------------------------ the index

  class KeywordIndex {
    /** Keys of `idx.notes` in insertion order. */
    var order: seq<string>
    var notes: map<string, Entry>
    /** The `buildIndex` calls in progress, oldest first. */
    var rebuilds: seq<Rebuild>

    ghost predicate Valid()
      reads this
    {
      Distinct(order) && (forall id :: id in notes <==> id in order) && Awaiting(rebuilds)
    }

    constructor ()
      ensures Valid() && order == [] && notes == map[] && rebuilds == []
    {
      order := [];
      notes := map[];
      rebuilds := [];
    }

    /** `addOrUpdate`: replaces the entry of `id`; a new id goes to the end of the key order. */
    method AddOrUpdate(id: string, title: string, content: string, updatedAt: Option<int>, now: int)
      requires Valid()
      modifies this
      ensures Valid()
      ensures notes == old(notes)[id := NewEntry(title, content, updatedAt, now)]
      ensures order == if id in old(notes) then old(order) else old(order) + [id]
      ensures rebuilds == old(rebuilds)
    {
      var tokens := CountTokens(Tokenize(title + " " + content));
      if id !in notes {
        order := order + [id];
      }
      notes := notes[id := Entry(title, Stamp(updatedAt, now), tokens, content)];
    }

    /**
     * `updateFromSave`: a null title or content keeps the stored one; an unknown
     * id starts from an empty entry.
     */
    method UpdateFromSave(id: string, titleOrNull: Option<string>, contentOrNull: Option<string>,
                          updatedAt: Option<int>, now: int)
      requires Valid()
      modifies this
      ensures Valid()
      ensures var cur := if id in old(notes) then old(notes)[id] else Entry("", 0, map[], "");
        notes == old(notes)[id := NewEntry(titleOrNull.GetOr(cur.title), contentOrNull.GetOr(cur.text),
                                            Some(Stamp(updatedAt, now)), now)]
      ensures order == if id in old(notes) then old(order) else old(order) + [id]
      ensures rebuilds == old(rebuilds)
    {
      var cur := if id in notes then notes[id] else Entry("", 0, map[], "");
      var title := if titleOrNull.None? then cur.title else titleOrNull.value;
      var text := if contentOrNull.None? then cur.text else contentOrNull.value;
      AddOrUpdate(id, title, text, Some(Stamp(updatedAt, now)), now);
    }

    /**
     * `buildIndex` up to its first `await`: the index is cleared, and a
     * non-empty list leaves the call waiting for the fetch of its first note.
     */
    method StartBuild(list: seq<Listed>)
      requires Valid()
      modifies this
      ensures notes == map[] && order == []
      ensures rebuilds == old(rebuilds) + (if list == [] then [] else [Rebuild(list, 0)])
      ensures Valid()
    {
      notes, order := map[], [];
      if list != [] {
        rebuilds := rebuilds + [Rebuild(list, 0)];
      }
    }

    /**
     * The fetch rebuild `b` awaits answers: a successful reply is added with
     * `addOrUpdate` into the index as it now is, whatever ran in between, and
     * the loop moves on to the next note or ends.
     */
    method BuildReply(b: nat, reply: Result<NoteData, string>, now: int)
      requires Valid() && b < |rebuilds|
      modifies this
      ensures var n := old(rebuilds[b].list[rebuilds[b].next]);
        && notes == (if reply.Ok? then old(notes)[n.id := EntryOf(n, reply.value, now)] else old(notes))
        && order == (if reply.Ok? && n.id !in old(order) then old(order) + [n.id] else old(order))
      ensures rebuilds == Stepped(old(rebuilds), b)
      ensures Valid()
    {
      var n := rebuilds[b].list[rebuilds[b].next];
      if reply.Ok? {
        var d := reply.value;
        AddOrUpdate(n.id, FallbackTitle(d.title, n.title),
                    if Truthy(d.content) then d.content.value else "", Some(Stamp(d.updatedAt, now)), now);
      }
      rebuilds := Stepped(rebuilds, b);
    }

    /**
     * `buildIndex` when no other event runs while it awaits: every listed note
     * whose fetch succeeded, in list order.
     */
    method BuildIndex(list: seq<Listed>, replies: seq<Result<NoteData, string>>, now: int)
      requires Valid() && |replies| == |list|
      modifies this
      ensures notes == Built(list, replies, now)
      ensures order == BuiltOrder(list, replies)
      ensures rebuilds == old(rebuilds)
      ensures Valid()
    {
      StartBuild(list);
      var i := 0;
      while i < |list|
        invariant 0 <= i <= |list|
        invariant Valid()
        invariant notes == Built(list[..i], replies[..i], now)
        invariant order == BuiltOrder(list[..i], replies[..i])
        invariant rebuilds == old(rebuilds) + (if i < |list| then [Rebuild(list, i)] else [])
      {
        BuildStep(list, replies, now, i);
        SteppedLast(old(rebuilds), list, i);
        BuildReply(|rebuilds| - 1, replies[i], now);
        i := i + 1;
      }
      assert list[..i] == list && replies[..i] == replies;
    }

    /**
     * `searchIds(ids, q)`: no query tokens gives no results; otherwise the
     * candidates, ordered by non-increasing score.
     */
    method SearchIds(ids: seq<string>, q: string, now: int) returns (out: seq<Hit>)
      ensures Tokenize(q) == [] ==> out == []
      ensures Tokenize(q) != [] ==> multiset(out) == multiset(Candidates(notes, ids, Tokenize(q), now))
      ensures SortedBy(out, HigherScore)
    {
      var qTokens := Tokenize(q);
      if |qTokens| == 0 {
        return [];
      }
      var qFirst := qTokens[0];
      var hits: seq<Hit> := [];
      var i := 0;
      while i < |ids|
        invariant 0 <= i <= |ids|
        invariant hits == Candidates(notes, ids[..i], qTokens, now)
      {
        assert ids[..i + 1][..i] == ids[..i];
        var id := ids[i];
        if id in notes {
          var meta := notes[id];
          var sc := ScoreNote(meta, qTokens, now);
          if sc > 0.0 {
            hits := hits + [Hit(id, meta.title, MakeSnippet(meta.text, qFirst), sc)];
          }
        }
        i := i + 1;
      }
      assert ids[..i] == ids;
      out := SortBy(hits, HigherScore);
      HigherScoreIsPreorder();
      SortBySorted(hits, HigherScore);
    }

    /** `searchAll(q)`: every indexed note, visited in insertion order. */
    method SearchAll(q: string, now: int) returns (out: seq<Hit>)
      ensures Tokenize(q) == [] ==> out == []
      ensures Tokenize(q) != [] ==> multiset(out) == multiset(Candidates(notes, order, Tokenize(q), now))
      ensures SortedBy(out, HigherScore)
    {
      out := SearchIds(order, q, now);
    }

    /** `searchNote(noteId, q)`: at most the one note. */
    method SearchNote(noteId: string, q: string, now: int) returns (out: seq<Hit>)
      ensures |out| <= 1
      ensures forall h :: h in out ==> h.noteId == noteId && noteId in notes && h.score > 0.0
      ensures Tokenize(q) != [] && noteId in notes && Score(notes[noteId], Tokenize(q), now) > 0.0 ==> |out| == 1
    {
      out := SearchIds([noteId], q, now);
      if Tokenize(q) != [] {
        var c := Candidates(notes, [noteId], Tokenize(q), now);
        assert [noteId][..0] == [];
        assert |multiset(out)| == |multiset(c)|;
        CandidatesExact(notes, [noteId], Tokenize(q), now, noteId);
        forall h | h in out ensures h.noteId == noteId && noteId in notes && h.score > 0.0 {
          assert h in multiset(c);
        }
        if noteId in notes && Score(notes[noteId], Tokenize(q), now) > 0.0 {
          assert |c| == 1;
        }
      }
    }

    /**
     * `searchGroup(q, groupId, fetchGroupNotes)`: a failed membership fetch gives
     * no results; otherwise the group's note ids are searched (a missing list
     * counts as empty).
     */
    method SearchGroup(q: string, members: Result<Option<seq<string>>, string>, now: int) returns (out: seq<Hit>)
      ensures members.Err? ==> out == []
      ensures Tokenize(q) == [] ==> out == []
      ensures members.Ok? && Tokenize(q) != [] ==>
        multiset(out) == multiset(Candidates(notes, members.value.GetOr([]), Tokenize(q), now))
      ensures SortedBy(out, HigherScore)
    {
      if members.Err? {
        return [];
      }
      var ids := members.value.GetOr([]);
      out := SearchIds(ids, q, now);
    }
  }

  /**
   * An autosave while the index is rebuilt over `[b]`: the saved note `c`
   * arrives before the fetch of `b` answers, so it is indexed, and ahead of
   * `b`, where an undisturbed rebuild over the same reply lists only `[b]`.
   */
  method SaveDuringRebuild(b: Listed, c: string, db: NoteData, text: string, now: int)
    returns (idx: KeywordIndex)
    requires b.id != c
    ensures idx.order == [c, b.id]
  {
    idx := new KeywordIndex();
    idx.StartBuild([b]);
    idx.UpdateFromSave(c, None, Some(text), None, now);
    assert idx.rebuilds[0] == Rebuild([b], 0) && idx.order == [c];
    idx.BuildReply(0, Ok(db), now);
  }

  /** The same reply with nothing in between: `[b]`, without the saved note. */
  lemma UndisturbedOrder(b: Listed, db: NoteData)
    ensures BuiltOrder([b], [Ok(db)]) == [b.id]
  {
    assert [b][..0] == [];
  }
}
