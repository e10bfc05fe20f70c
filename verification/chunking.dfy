/**
 * Fixed-size chunking with overlap: `chunk_text` of the lite storage indexer
 * (`lite/src/storage/indexing.py`) and the chunking loop of the `/ingest`
 * endpoint (`lite/src/app.py`). Both walk the text with the same advance rule.
 * `chunk_text` returns early for a non-positive size, so `Spans` only meets
 * positive sizes; the endpoint has no such guard, and `Cuts` follows it there.
 */
module Chunking {
  import opened Strings
  import opened Seqs

  /** A chunk `text[start:end]`. */
  datatype Span = Span(start: nat, end: nat)

  function Min(a: int, b: int): int { if a <= b then a else b }

  /** The advance rule: `j - overlap` when that moves forward, otherwise `j`. */
  function Next(i: nat, j: nat, overlap: int): (r: nat)
    requires i < j
    ensures r > i
    ensures overlap >= 0 ==> r <= j
    ensures j - overlap > i ==> r == j - overlap
  {
    if j - overlap <= i then j else j - overlap
  }

  /**
   * Each span starts at `i` or later, is not empty, ends inside the text, and
   * is `size` long unless the text ends first.
   */
  predicate Shaped(r: seq<Span>, len: nat, size: int, i: nat) {
    forall k :: 0 <= k < |r| ==> i <= r[k].start < r[k].end <= len && r[k].end == Min(len, r[k].start + size)
  }

  /** The spans the loop visits from offset `i` in a text of length `len`. */
  function Spans(len: nat, size: int, overlap: int, i: nat): (r: seq<Span>)
    requires size > 0
    ensures i >= len <==> r == []
    ensures Shaped(r, len, size, i)
    ensures r != [] ==> r[0].start == i
    decreases len - i
  {
    if i >= len then []
    else
      var j := Min(len, i + size);
      [Span(i, j)] + Spans(len, size, overlap, Next(i, j, overlap))
  }

  /** Every span lies inside a text of length `len`. */
  predicate Within(spans: seq<Span>, len: nat) {
    forall k :: 0 <= k < |spans| ==> spans[k].start <= spans[k].end <= len
  }

  function Slices(text: string, spans: seq<Span>): (r: seq<string>)
    requires Within(spans, |text|)
    ensures |r| == |spans|
    ensures forall k :: 0 <= k < |spans| ==> r[k] == text[spans[k].start..spans[k].end]
  {
    seq(|spans|, k requires 0 <= k < |spans| => text[spans[k].start..spans[k].end])
  }

  /** What `chunk_text(text, chunk_size, overlap)` returns. */
  function ChunkTextSpec(text: string, size: int, overlap: int): (r: seq<string>)
    ensures size <= 0 ==> r == [text]
    ensures size > 0 && text == "" ==> r == []
    ensures size > 0 ==> forall k :: 0 <= k < |r| ==> 1 <= |r[k]| <= size
  {
    if size <= 0 then [text] else Slices(text, Spans(|text|, size, overlap, 0))
  }

  /** `chunk_text`: the loop appends `text[i:j]` and advances `i` by the rule. */
  method ChunkText(text: string, size: int, overlap: int) returns (out: seq<string>)
    ensures out == ChunkTextSpec(text, size, overlap)
  {
    if size <= 0 {
      return [text];
    }
    out := [];
    var i: nat := 0;
    while i < |text|
      invariant out + Slices(text, Spans(|text|, size, overlap, i)) == ChunkTextSpec(text, size, overlap)
      decreases |text| - i
    {
      var j := Min(|text|, i + size);
      var ni := j - overlap;
      if ni <= i {
        ni := j;
      }
      assert ni == Next(i, j, overlap);
      SlicesUnfold(text, size, overlap, i);
      ConcatAssoc(out, [text[i..j]], Slices(text, Spans(|text|, size, overlap, ni)));
      out := out + [text[i..j]];
      i := ni;
    }
    assert out + [] == out;
  }

  /** The chunk at `i` followed by the chunks from where the advance rule goes next. */
  lemma SlicesUnfold(text: string, size: int, overlap: int, i: nat)
    requires size > 0 && i < |text|
    ensures var j := Min(|text|, i + size);
      Slices(text, Spans(|text|, size, overlap, i))
        == [text[i..j]] + Slices(text, Spans(|text|, size, overlap, Next(i, j, overlap)))
  {
    var j := Min(|text|, i + size);
    SpansUnfold(|text|, size, overlap, i);
  }

  lemma SpansUnfold(len: nat, size: int, overlap: int, i: nat)
    requires size > 0 && i < len
    ensures var j := Min(len, i + size);
      Spans(len, size, overlap, i) == [Span(i, j)] + Spans(len, size, overlap, Next(i, j, overlap))
  {
  }

  /** With a non-negative overlap the last chunk ends at the end of the text. */
  lemma {:induction false} LastEndsAtLen(len: nat, size: int, overlap: int, i: nat)
    requires size > 0 && overlap >= 0 && i < len
    ensures var r := Spans(len, size, overlap, i);
      r != [] && r[|r| - 1].end == len
    decreases len - i
  {
    var j := Min(len, i + size);
    var n := Next(i, j, overlap);
    SpansUnfold(len, size, overlap, i);
    if n < len {
      LastEndsAtLen(len, size, overlap, n);
    }
  }

  /** Each chunk after the first starts where the advance rule puts it. */
  lemma {:induction false} SpansStep(len: nat, size: int, overlap: int, i: nat, k: nat)
    requires size > 0
    requires k + 1 < |Spans(len, size, overlap, i)|
    ensures var r := Spans(len, size, overlap, i);
      r[k + 1].start == Next(r[k].start, r[k].end, overlap)
    decreases k
  {
    var j := Min(len, i + size);
    var n := Next(i, j, overlap);
    SpansUnfold(len, size, overlap, i);
    if k > 0 {
      SpansStep(len, size, overlap, n, k - 1);
    }
  }

  /** Successive chunks start strictly later: the loop terminates and no chunk repeats a start. */
  lemma {:induction false} StartsIncrease(len: nat, size: int, overlap: int, i: nat, a: nat, b: nat)
    requires size > 0
    requires a < b < |Spans(len, size, overlap, i)|
    ensures Spans(len, size, overlap, i)[a].start < Spans(len, size, overlap, i)[b].start
    decreases b - a
  {
    SpansStep(len, size, overlap, i, a);
    if a + 1 < b {
      StartsIncrease(len, size, overlap, i, a + 1, b);
    }
  }

  /** With a non-negative overlap every character of the text lies in some chunk. */
  lemma {:induction false} Covers(len: nat, size: int, overlap: int, i: nat, p: nat)
    requires size > 0 && overlap >= 0 && i <= p < len
    ensures exists k :: (0 <= k < |Spans(len, size, overlap, i)| &&
      Spans(len, size, overlap, i)[k].start <= p < Spans(len, size, overlap, i)[k].end)
    decreases len - i
  {
    var r := Spans(len, size, overlap, i);
    var j := Min(len, i + size);
    if p >= j {
      var n := Next(i, j, overlap);
      var rest := Spans(len, size, overlap, n);
      Covers(len, size, overlap, n, p);
      var k :| 0 <= k < |rest| && rest[k].start <= p < rest[k].end;
      SpansShift(len, size, overlap, i, k);
    } else {
      assert r[0].start <= p < r[0].end;
    }
  }

  /** The spans from the next offset are the spans from `i` without the first. */
  lemma SpansShift(len: nat, size: int, overlap: int, i: nat, k: nat)
    requires size > 0 && i < len
    requires k < |Spans(len, size, overlap, Next(i, Min(len, i + size), overlap))|
    ensures k + 1 < |Spans(len, size, overlap, i)|
    ensures Spans(len, size, overlap, i)[k + 1] == Spans(len, size, overlap, Next(i, Min(len, i + size), overlap))[k]
  {
    SpansUnfold(len, size, overlap, i);
  }

  /** With no overlap the chunks partition the text: joined together they give it back. */
  lemma {:induction false} NoOverlapPartition(text: string, size: int, i: nat)
    requires size > 0 && i <= |text|
    ensures Concat(Slices(text, Spans(|text|, size, 0, i))) == text[i..]
    decreases |text| - i
  {
    if i < |text| {
      var j := Min(|text|, i + size);
      NoOverlapPartition(text, size, j);
      assert Next(i, j, 0) == j;
      SlicesUnfold(text, size, 0, i);
      ConcatCons(text[i..j], Slices(text, Spans(|text|, size, 0, j)));
      assert text[i..] == text[i..j] + text[j..];
    }
  }

  function Concat(xs: seq<string>): string {
    if xs == [] then "" else xs[0] + Concat(xs[1..])
  }

  lemma ConcatCons(x: string, xs: seq<string>)
    ensures Concat([x] + xs) == x + Concat(xs)
  {
    assert ([x] + xs)[1..] == xs;
  }

  // ----------------------------------------------------------------- ingest

  /** One record the `/ingest` endpoint stores: `{ id, text, meta: { source } }`. */
  datatype IngestChunk = IngestChunk(id: string, text: string, source: string)

  /**
   * One pass of the `/ingest` loop: the record for `raw[start:stop]`. Unlike
   * `chunk_text`, the endpoint does not guard its `chunk` parameter, so `stop`
   * can lie before `start` and even be negative.
   */
  datatype Cut = Cut(start: nat, stop: int)

  /** A Python integer as `str()` prints it. */
  function Signed(n: int): string {
    if n < 0 then "-" + Decimal(-n) else Decimal(n)
  }

  /** The chunk id `"{filename}#{i}-{j}"`. */
  function ChunkId(filename: string, i: nat, j: int): string {
    filename + "#" + Decimal(i) + "-" + Signed(j)
  }

  /**
   * Python's slice `raw[start:stop]` for a start inside the text: a negative
   * stop counts from the end, a stop past the end is cut to the length, and
   * a stop that is not after the start gives the empty string.
   */
  function PySlice(raw: string, start: nat, stop: int): string
    requires start <= |raw|
  {
    var end := if stop < 0 then (if |raw| + stop < 0 then 0 else |raw| + stop) else Min(|raw|, stop);
    if start < end then raw[start..end] else ""
  }

  /** The slice rules `PySlice` follows. */
  lemma PySliceRules(raw: string, start: nat, stop: int)
    requires start <= |raw|
    ensures var r := PySlice(raw, start, stop);
      && start + |r| <= |raw| && r == raw[start..start + |r|]
      && (start < stop <= |raw| ==> r == raw[start..stop])
      && (|raw| <= stop ==> r == raw[start..])
      && (0 <= stop <= start ==> r == "")
      && (stop < 0 && start < |raw| + stop ==> r == raw[start..|raw| + stop])
      && (stop < 0 && |raw| + stop <= start ==> r == "")
  {
  }

  /** The stop of the pass at `i`: `min(len(raw), i + chunk)`. */
  function IngestStop(len: nat, chunk: int, i: int): int { Min(len, i + chunk) }

  /** Where the `/ingest` loop goes after the pass at `i`. */
  function IngestNext(len: nat, chunk: int, overlap: int, i: int): int {
    var j := IngestStop(len, chunk, i);
    if j - overlap > i then j - overlap else j
  }

  /** The parameters for which each pass of the `/ingest` loop moves forward. */
  predicate Advances(chunk: int, overlap: int) { chunk > 0 || overlap < chunk }

  /**
   * A pass inside the text moves `i` forward exactly when `Advances` holds.
   * Otherwise `i` never grows, the loop condition `i < len(raw)` stays true,
   * and the request never returns.
   */
  lemma AdvancesIff(len: nat, chunk: int, overlap: int, i: int)
    requires i < len
    ensures IngestNext(len, chunk, overlap, i) > i <==> Advances(chunk, overlap)
  {
  }

  /** The passes the `/ingest` loop makes from offset `i` in a text of length `len`. */
  function Cuts(len: nat, chunk: int, overlap: int, i: nat): (r: seq<Cut>)
    requires Advances(chunk, overlap)
    ensures i >= len <==> r == []
    ensures r != [] ==> r[0].start == i
    ensures forall k :: 0 <= k < |r| ==> i <= r[k].start < len && r[k].stop == IngestStop(len, chunk, r[k].start)
    decreases len - i
  {
    if i >= len then []
    else
      AdvancesIff(len, chunk, overlap, i);
      [Cut(i, IngestStop(len, chunk, i))] + Cuts(len, chunk, overlap, IngestNext(len, chunk, overlap, i))
  }

  lemma CutsUnfold(len: nat, chunk: int, overlap: int, i: nat)
    requires Advances(chunk, overlap) && i < len
    ensures IngestNext(len, chunk, overlap, i) > i
    ensures Cuts(len, chunk, overlap, i)
      == [Cut(i, IngestStop(len, chunk, i))] + Cuts(len, chunk, overlap, IngestNext(len, chunk, overlap, i))
  {
    AdvancesIff(len, chunk, overlap, i);
  }

  /** A span as a pass of the `/ingest` loop. */
  function AsCuts(spans: seq<Span>): (r: seq<Cut>)
    ensures |r| == |spans|
    ensures forall k :: 0 <= k < |spans| ==> r[k] == Cut(spans[k].start, spans[k].end)
  {
    seq(|spans|, k requires 0 <= k < |spans| => Cut(spans[k].start, spans[k].end))
  }

  /** With a positive chunk size the `/ingest` loop visits the spans of `chunk_text`. */
  lemma {:induction false} CutsArePositiveSpans(len: nat, chunk: int, overlap: int, i: nat)
    requires chunk > 0
    ensures Cuts(len, chunk, overlap, i) == AsCuts(Spans(len, chunk, overlap, i))
    decreases len - i
  {
    if i < len {
      var j := Min(len, i + chunk);
      var n := Next(i, j, overlap);
      assert IngestNext(len, chunk, overlap, i) == n;
      CutsUnfold(len, chunk, overlap, i);
      SpansUnfold(len, chunk, overlap, i);
      CutsArePositiveSpans(len, chunk, overlap, n);
      var rest := Spans(len, chunk, overlap, n);
      assert AsCuts([Span(i, j)] + rest) == [Cut(i, j)] + AsCuts(rest);
    }
  }

  /**
   * With `overlap < chunk <= 0` every pass ends at `i + chunk`, never after
   * its start, and the next pass starts `chunk - overlap` later; the loop
   * stops at the first start at or past the end of the text.
   */
  lemma {:induction false} BackwardCuts(len: nat, chunk: int, overlap: int, i: nat)
    requires overlap < chunk <= 0
    ensures var r := Cuts(len, chunk, overlap, i);
      (forall k :: 0 <= k < |r| ==> r[k].stop == r[k].start + chunk <= r[k].start)
      && (forall k :: 0 < k < |r| ==> r[k].start == r[k - 1].start + (chunk - overlap))
      && (r != [] ==> len <= r[|r| - 1].start + (chunk - overlap))
    decreases len - i
  {
    if i < len {
      var n := IngestNext(len, chunk, overlap, i);
      assert n == i + (chunk - overlap);
      CutsUnfold(len, chunk, overlap, i);
      BackwardCuts(len, chunk, overlap, n);
      var rest := Cuts(len, chunk, overlap, n);
      var r := Cuts(len, chunk, overlap, i);
      assert forall k :: 0 < k < |r| ==> r[k] == rest[k - 1];
    }
  }

  /** The record for one pass: `{ id: "{filename}#{i}-{j}", text: raw[i:j], meta: { source } }`. */
  function Record(raw: string, filename: string, cut: Cut): IngestChunk
    requires cut.start <= |raw|
  {
    IngestChunk(ChunkId(filename, cut.start, cut.stop), PySlice(raw, cut.start, cut.stop), filename)
  }

  /** Every pass starts inside a text of length `len`. */
  predicate StartsWithin(cuts: seq<Cut>, len: nat) {
    forall k :: 0 <= k < |cuts| ==> cuts[k].start <= len
  }

  /**
   * The `/ingest` loop over the decoded upload `raw`. The loop only ends when
   * each pass moves forward, which is what `Advances` demands of `chunk` and
   * `overlap`. Documents are handed to the store only when there is at least one.
   */
  method Ingest(raw: string, filename: string, chunk: int, overlap: int)
    returns (chunks: seq<IngestChunk>, added: nat, stored: bool)
    requires Advances(chunk, overlap)
    ensures chunks == Records(raw, filename, Cuts(|raw|, chunk, overlap, 0))
    ensures chunk > 0 ==> |chunks| == |Spans(|raw|, chunk, overlap, 0)|
    ensures chunk > 0 ==> forall k :: 0 <= k < |chunks| ==>
      var s := Spans(|raw|, chunk, overlap, 0)[k];
      chunks[k] == IngestChunk(ChunkId(filename, s.start, s.end), raw[s.start..s.end], filename)
    ensures added == |chunks|
    ensures stored <==> chunks != []
  {
    chunks := [];
    var i: nat := 0;
    while i < |raw|
      invariant chunks + Records(raw, filename, Cuts(|raw|, chunk, overlap, i)) == Records(raw, filename, Cuts(|raw|, chunk, overlap, 0))
      decreases |raw| - i
    {
      var j := Min(|raw|, i + chunk);
      var ni := if j - overlap > i then j - overlap else j;
      assert j == IngestStop(|raw|, chunk, i) && ni == IngestNext(|raw|, chunk, overlap, i);
      RecordsUnfold(raw, filename, chunk, overlap, i);
      ConcatAssoc(chunks, [Record(raw, filename, Cut(i, j))], Records(raw, filename, Cuts(|raw|, chunk, overlap, ni)));
      chunks := chunks + [Record(raw, filename, Cut(i, j))];
      i := ni;
    }
    assert chunks + [] == chunks;
    if chunk > 0 {
      PositiveRecords(raw, filename, chunk, overlap);
    }
    stored := chunks != [];
    added := |chunks|;
  }

  /** With a positive chunk size the records hold the spans of `chunk_text` and their plain slices. */
  lemma PositiveRecords(raw: string, filename: string, chunk: int, overlap: int)
    requires chunk > 0
    ensures var r := Records(raw, filename, Cuts(|raw|, chunk, overlap, 0));
      var spans := Spans(|raw|, chunk, overlap, 0);
      |r| == |spans| &&
      forall k :: 0 <= k < |r| ==>
        r[k] == IngestChunk(ChunkId(filename, spans[k].start, spans[k].end), raw[spans[k].start..spans[k].end], filename)
  {
    CutsArePositiveSpans(|raw|, chunk, overlap, 0);
    var spans := Spans(|raw|, chunk, overlap, 0);
    var r := Records(raw, filename, Cuts(|raw|, chunk, overlap, 0));
    forall k | 0 <= k < |r|
      ensures r[k] == IngestChunk(ChunkId(filename, spans[k].start, spans[k].end), raw[spans[k].start..spans[k].end], filename)
    {
      PySliceRules(raw, spans[k].start, spans[k].end);
    }
  }

  /** The record of each pass, in order. */
  function Records(raw: string, filename: string, cuts: seq<Cut>): (r: seq<IngestChunk>)
    requires StartsWithin(cuts, |raw|)
    ensures |r| == |cuts|
    ensures forall k :: 0 <= k < |cuts| ==> r[k] == Record(raw, filename, cuts[k])
  {
    seq(|cuts|, k requires 0 <= k < |cuts| => Record(raw, filename, cuts[k]))
  }

  lemma RecordsUnfold(raw: string, filename: string, chunk: int, overlap: int, i: nat)
    requires Advances(chunk, overlap) && i < |raw|
    ensures IngestNext(|raw|, chunk, overlap, i) > i
    ensures Records(raw, filename, Cuts(|raw|, chunk, overlap, i))
      == [Record(raw, filename, Cut(i, IngestStop(|raw|, chunk, i)))]
         + Records(raw, filename, Cuts(|raw|, chunk, overlap, IngestNext(|raw|, chunk, overlap, i)))
  {
    CutsUnfold(|raw|, chunk, overlap, i);
    RecordsCons(raw, filename, Cut(i, IngestStop(|raw|, chunk, i)), Cuts(|raw|, chunk, overlap, IngestNext(|raw|, chunk, overlap, i)));
  }

  lemma RecordsCons(raw: string, filename: string, c: Cut, cuts: seq<Cut>)
    requires c.start <= |raw| && StartsWithin(cuts, |raw|)
    ensures StartsWithin([c] + cuts, |raw|)
    ensures Records(raw, filename, [c] + cuts) == [Record(raw, filename, c)] + Records(raw, filename, cuts)
  {
    var all := [c] + cuts;
    var lhs := Records(raw, filename, all);
    var rhs := [Record(raw, filename, c)] + Records(raw, filename, cuts);
    forall k | 0 <= k < |lhs|
      ensures lhs[k] == rhs[k]
    {
      if k > 0 {
        assert all[k] == cuts[k - 1];
      }
    }
  }

  /** A zero chunk size with overlap -1 stores one empty record per character. */
  lemma ZeroChunkRecords()
    ensures Records("ab", "f", Cuts(2, 0, -1, 0))
      == [IngestChunk("f#0-0", "", "f"), IngestChunk("f#1-1", "", "f")]
  {
    CutsUnfold(2, 0, -1, 0);
    CutsUnfold(2, 0, -1, 1);
    assert Cuts(2, 0, -1, 0) == [Cut(0, 0), Cut(1, 1)];
    assert Decimal(0) == "0" && Decimal(1) == "1";
    assert ChunkId("f", 0, 0) == "f#0-0" && ChunkId("f", 1, 1) == "f#1-1";
    assert PySlice("ab", 0, 0) == "" && PySlice("ab", 1, 1) == "";
  }

  /** A negative chunk size slices with a stop that counts from the end. */
  lemma NegativeChunkRecords()
    ensures Records("ab", "f", Cuts(2, -1, -3, 0)) == [IngestChunk("f#0--1", "a", "f")]
  {
    CutsUnfold(2, -1, -3, 0);
    assert Cuts(2, -1, -3, 0) == [Cut(0, -1)];
    assert Decimal(0) == "0" && Decimal(1) == "1" && Signed(-1) == "-1";
    assert ChunkId("f", 0, -1) == "f#0--1";
    assert PySlice("ab", 0, -1) == "ab"[0..1] == "a";
  }

  /** Chunk ids are distinct: different start offsets print differently. */
  lemma ChunkIdsDistinct(filename: string, a: nat, b: int, c: nat, d: int)
    requires ChunkId(filename, a, b) == ChunkId(filename, c, d)
    ensures a == c
  {
    IdTail(filename, a, b);
    IdTail(filename, c, d);
    var x := Decimal(a) + "-" + Signed(b);
    var y := Decimal(c) + "-" + Signed(d);
    assert x == y;
    var da, dc := Decimal(a), Decimal(c);
    DashAfterDigits(da, Signed(b));
    DashAfterDigits(dc, Signed(d));
    assert da == x[..|da|] == y[..|dc|] == dc;
    DecimalInjective(a, c);
  }

  /** The part of a chunk id after the file name and `#`. */
  lemma IdTail(filename: string, a: nat, b: int)
    ensures ChunkId(filename, a, b)[|filename| + 1..] == Decimal(a) + "-" + Signed(b)
  {
    var x := Decimal(a) + "-" + Signed(b);
    assert ChunkId(filename, a, b) == (filename + "#") + x;
  }

  /** In a digit string followed by '-', the first '-' comes right after the digits. */
  lemma DashAfterDigits(digits: string, rest: string)
    requires forall i :: 0 <= i < |digits| ==> '0' <= digits[i] <= '9'
    ensures FirstMatchFrom(digits + "-" + rest, "-", 0) == |digits|
  {
    var s := digits + "-" + rest;
    assert MatchAt(s, "-", |digits|);
    var r := FirstMatchFrom(s, "-", 0);
    assert r != -1;
    assert s[r..r + 1] == "-";
    assert s[r] == '-';
  }
}
