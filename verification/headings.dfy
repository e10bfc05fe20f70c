/**
 * `split_by_heading` of the backend import service
 * (`backend/app/services/import_service.py`): the lines of a document are cut
 * into chunks, a new chunk starting at each line that begins with '#' unless
 * nothing has been collected yet. Each chunk is reported with its text and
 * its `start`/`end` line positions.
 */
module Headings {
  import opened Strings

  /** `("\n".join(current), start, end)`. */
  datatype Chunk = Chunk(text: string, start: nat, end: nat)

  predicate IsHeading(line: string) {
    |line| > 0 && line[0] == '#'
  }

  /** The grouping of `lines` into chunks, as lists of lines. */
  function Group(lines: seq<string>): (g: seq<seq<string>>)
    ensures lines == [] <==> g == []
    ensures forall k :: 0 <= k < |g| ==> g[k] != []
    decreases |lines|
  {
    if lines == [] then []
    else
      var n := |lines| - 1;
      var g := Group(lines[..n]);
      if g == [] then [[lines[n]]]
      else if IsHeading(lines[n]) then g + [[lines[n]]]
      else g[..|g| - 1] + [g[|g| - 1] + [lines[n]]]
  }

  function Flatten(g: seq<seq<string>>): seq<string> {
    if g == [] then [] else Flatten(g[..|g| - 1]) + g[|g| - 1]
  }

  /** The number of lines in the groups. */
  function Size(g: seq<seq<string>>): nat {
    |Flatten(g)|
  }

  /** The chunks reported for the groups: the first starts at 0, later ones one past the previous end. */
  function Chunks(g: seq<seq<string>>): (r: seq<Chunk>)
    ensures |r| == |g|
  {
    if g == [] then []
    else
      var n := |g| - 1;
      Chunks(g[..n]) + [Chunk(Join(g[n], "\n"), if n == 0 then 0 else Size(g[..n]) + 1, Size(g))]
  }

  /** The grouping partitions the lines: flattening it gives them back in order. */
  lemma {:induction false} GroupPartitions(lines: seq<string>)
    ensures Flatten(Group(lines)) == lines
    decreases |lines|
  {
    if lines != [] {
      var n := |lines| - 1;
      var g := Group(lines[..n]);
      GroupPartitions(lines[..n]);
      assert lines == lines[..n] + [lines[n]];
      if g != [] && !IsHeading(lines[n]) {
        var h := g[..|g| - 1];
        assert g == h + [g[|g| - 1]];
        assert Flatten(g) == Flatten(h) + g[|g| - 1];
        assert (h + [g[|g| - 1] + [lines[n]]])[..|h|] == h;
      } else if g != [] {
        assert (g + [[lines[n]]])[..|g|] == g;
      }
    }
  }

  /** Every chunk after the first begins with a heading line; the first begins with the first line. */
  lemma {:induction false} LaterChunksStartAtHeadings(lines: seq<string>)
    ensures var g := Group(lines);
      (g != [] ==> g[0][0] == lines[0])
      && forall k :: 0 < k < |g| ==> IsHeading(g[k][0])
    decreases |lines|
  {
    if lines != [] {
      var n := |lines| - 1;
      var g := Group(lines[..n]);
      LaterChunksStartAtHeadings(lines[..n]);
      if g != [] {
        var g2 := Group(lines);
        assert g2[0][0] == g[0][0];
        forall k | 0 < k < |g2| ensures IsHeading(g2[k][0]) {
          if k < |g| {
            assert g2[k][0] == g[k][0];
          }
        }
      }
    }
  }

  /** Within each chunk only the first line may be a heading. */
  predicate HeadingsFirst(g: seq<seq<string>>) {
    forall k, j :: 0 <= k < |g| && 0 < j < |g[k]| ==> !IsHeading(g[k][j])
  }

  /**
   * No chunk holds a heading line after its first line: with the partition,
   * every heading line other than the document's first line opens a chunk.
   */
  lemma {:induction false} HeadingsOpenChunks(lines: seq<string>)
    ensures HeadingsFirst(Group(lines))
    decreases |lines|
  {
    if lines != [] {
      var n := |lines| - 1;
      var g := Group(lines[..n]);
      HeadingsOpenChunks(lines[..n]);
      var g2 := Group(lines);
      if g != [] && !IsHeading(lines[n]) {
        var m := |g| - 1;
        assert g2 == g[..m] + [g[m] + [lines[n]]];
        forall k, j | 0 <= k < |g2| && 0 < j < |g2[k]| ensures !IsHeading(g2[k][j]) {
          if k < m {
            assert g2[k] == g[k];
          } else if j < |g[m]| {
            assert g2[k][j] == g[m][j];
          }
        }
      } else if g != [] {
        forall k, j | 0 <= k < |g2| && 0 < j < |g2[k]| ensures !IsHeading(g2[k][j]) {
          assert k < |g|;
          assert g2[k] == g[k];
        }
      }
    }
  }

  /** The first chunk starts at 0, each later one at the previous end plus one, and the last ends at the line count. */
  lemma {:induction false} ChunkPositions(g: seq<seq<string>>)
    ensures var r := Chunks(g);
      && (r != [] ==> r[0].start == 0 && r[|r| - 1].end == Size(g))
      && forall k :: 0 < k < |r| ==> r[k].start == r[k - 1].end + 1
    decreases |g|
  {
    if g != [] {
      var n := |g| - 1;
      ChunkPositions(g[..n]);
      var r := Chunks(g);
      var p := Chunks(g[..n]);
      assert r[..n] == p;
      if n > 0 {
        assert g[..n][..n - 1] == g[..n - 1];
        assert p[n - 1].end == Size(g[..n]);
      }
    }
  }

  /**
   * `split_by_heading(text)`: walks the lines once, closing the current chunk
   * at a heading line when it is non-empty.
   */
  method SplitByHeading(text: string) returns (chunks: seq<Chunk>)
    ensures chunks == Chunks(Group(SplitLines(text)))
  {
    var lines := SplitLines(text);
    chunks := [];
    var start := 0;
    var current: seq<string> := [];
    var i := 0;
    while i < |lines|
      invariant 0 <= i <= |lines|
      invariant i == 0 ==> current == [] && chunks == [] && start == 0
      invariant i > 0 ==> Open(Group(lines[..i]), chunks, current, start)
    {
      var line := lines[i];
      SplitStep(lines, i, chunks, current, start);
      if IsHeading(line) && current != [] {
        chunks := chunks + [Chunk(Join(current, "\n"), start, i)];
        current := [];
        start := i + 1;
      }
      current := current + [line];
      i := i + 1;
    }
    assert lines[..i] == lines;
    GroupSize(lines);
    if current != [] {
      FinalStep(Group(lines), chunks, current, start);
      chunks := chunks + [Chunk(Join(current, "\n"), start, |lines|)];
    }
  }

  /** Loop state: `chunks` reports every group but the last, which is `current`, starting at `start`. */
  ghost predicate Open(g: seq<seq<string>>, chunks: seq<Chunk>, current: seq<string>, start: nat) {
    && g != []
    && current == g[|g| - 1]
    && chunks == Chunks(g[..|g| - 1])
    && start == (if |g| == 1 then 0 else Size(g[..|g| - 1]) + 1)
  }

  /** One turn of the loop keeps `Open` for the lines read so far. */
  lemma SplitStep(lines: seq<string>, i: nat, chunks: seq<Chunk>, current: seq<string>, start: nat)
    requires i < |lines|
    requires i == 0 ==> current == [] && chunks == [] && start == 0
    requires i > 0 ==> Open(Group(lines[..i]), chunks, current, start)
    ensures var line := lines[i];
      var closes := IsHeading(line) && current != [];
      Open(Group(lines[..i + 1]),
        if closes then chunks + [Chunk(Join(current, "\n"), start, i)] else chunks,
        (if closes then [] else current) + [line],
        if closes then i + 1 else start)
  {
    if i == 0 {
      FirstLine(lines);
    } else if IsHeading(lines[i]) {
      HeadingLine(lines, i, chunks, current, start);
    } else {
      OtherLine(lines, i, chunks, current, start);
    }
  }

  lemma FirstLine(lines: seq<string>)
    requires lines != []
    ensures Open(Group(lines[..1]), [], [lines[0]], 0)
  {
    assert lines[..1][..0] == [];
  }

  lemma HeadingLine(lines: seq<string>, i: nat, chunks: seq<Chunk>, current: seq<string>, start: nat)
    requires 0 < i < |lines| && IsHeading(lines[i])
    requires Open(Group(lines[..i]), chunks, current, start)
    ensures Open(Group(lines[..i + 1]), chunks + [Chunk(Join(current, "\n"), start, i)], [lines[i]], i + 1)
  {
    var g := Group(lines[..i]);
    GroupAt(lines, i);
    GroupSize(lines[..i]);
    ClosedOpen(g, chunks, current, start, lines[i]);
  }

  lemma OtherLine(lines: seq<string>, i: nat, chunks: seq<Chunk>, current: seq<string>, start: nat)
    requires 0 < i < |lines| && !IsHeading(lines[i])
    requires Open(Group(lines[..i]), chunks, current, start)
    ensures Open(Group(lines[..i + 1]), chunks, current + [lines[i]], start)
  {
    var g := Group(lines[..i]);
    GroupAt(lines, i);
    ExtendedOpen(g, chunks, current, start, lines[i]);
  }

  /** `Group` of one more line, stated on prefixes of `lines`. */
  lemma GroupAt(lines: seq<string>, i: nat)
    requires i < |lines|
    ensures var g := Group(lines[..i]);
      Group(lines[..i + 1]) ==
        if g == [] then [[lines[i]]]
        else if IsHeading(lines[i]) then g + [[lines[i]]]
        else g[..|g| - 1] + [g[|g| - 1] + [lines[i]]]
  {
    assert lines[..i + 1][..i] == lines[..i];
  }

  /** A heading line closes the open chunk, which ends at `Size(g)`, and opens a new one. */
  lemma ClosedOpen(g: seq<seq<string>>, chunks: seq<Chunk>, current: seq<string>, start: nat, line: string)
    requires Open(g, chunks, current, start)
    ensures Open(g + [[line]], chunks + [Chunk(Join(current, "\n"), start, Size(g))], [line], Size(g) + 1)
  {
    ClosedStep(g, line);
  }

  /** Any other line joins the open chunk. */
  lemma ExtendedOpen(g: seq<seq<string>>, chunks: seq<Chunk>, current: seq<string>, start: nat, line: string)
    requires Open(g, chunks, current, start)
    ensures Open(g[..|g| - 1] + [g[|g| - 1] + [line]], chunks, current + [line], start)
  {
    ExtendStep(g, line);
  }

  lemma ClosedStep(g: seq<seq<string>>, line: string)
    requires g != []
    ensures Chunks(g[..|g| - 1]) + [Chunk(Join(g[|g| - 1], "\n"), if |g| == 1 then 0 else Size(g[..|g| - 1]) + 1, Size(g))]
         == Chunks((g + [[line]])[..|g|])
    ensures Size((g + [[line]])[..|g|]) == Size(g)
  {
    assert (g + [[line]])[..|g|] == g;
  }

  lemma ExtendStep(g: seq<seq<string>>, line: string)
    requires g != []
    ensures var g2 := g[..|g| - 1] + [g[|g| - 1] + [line]];
      g2[..|g2| - 1] == g[..|g| - 1] && g2[|g2| - 1] == g[|g| - 1] + [line]
  {
  }

  lemma FinalStep(g: seq<seq<string>>, chunks: seq<Chunk>, current: seq<string>, start: nat)
    requires Open(g, chunks, current, start)
    ensures chunks + [Chunk(Join(current, "\n"), start, Size(g))] == Chunks(g)
  {
  }

  lemma GroupSize(lines: seq<string>)
    ensures Size(Group(lines)) == |lines|
  {
    GroupPartitions(lines);
  }
}
