/** offline_build.py: the compact markdown of a chunk, the three parallel lists load_chunks
    builds from the chunk files, and the batch ranges main hands to collection.add. */
module OfflineBuild {
  import Wrappers
  import opened Strings
  import opened Dicts
  import opened Cells
  import opened ChunkFiles

  // ---------------------------------------------------------------------------------------
  // chunk_to_markdown
  // ---------------------------------------------------------------------------------------

  /** v in {0, "0", "NA", "N.A.", "", None}: Python's set lookup compares by ==, so False,
      0.0 and every integer or float zero are in the set as well as 0. */
  predicate IsNoise(v: Cell) {
    v == None || v == Str("0") || v == Str("NA") || v == Str("N.A.") || v == Str("")
    || (v.Int? && v.i == 0) || v == Bool(false) || (v.Num? && v.x == 0.0)
  }

  /** "Context: {source} | Section: {section}", with "Unknown Source" for an absent
      source_file and "General" for an empty or absent global_header. */
  function ContextLine(r: Record): string {
    var section := if r.globalHeader != [] then r.globalHeader[0] else "General";
    var source := if r.sourceFile.Some? then r.sourceFile.value else "Unknown Source";
    "Context: " + source + " | Section: " + section
  }

  /** "### " and the subheaders joined with " | ", or "### Data Row" without subheaders. */
  function TitleLine(r: Record): string {
    "### " + (if r.subheaders != [] then Join(" | ", r.subheaders) else "Data Row")
  }

  /** The data lines: one per entry that is not noise, in insertion order. */
  function KeptLines(d: Dict<Cell>): (lines: seq<string>)
    ensures |lines| <= |d|
  {
    if d == [] then []
    else
      var e := d[|d| - 1];
      KeptLines(d[..|d| - 1]) + (if IsNoise(e.1) then [] else [EntryLine(e.0, e.1)])
  }

  /** The lines head followed by the data lines of d: the list chunk_to_markdown has built
      once it has gone through the entries of d. */
  function KeptAfter(head: seq<string>, d: Dict<Cell>): seq<string> {
    if d == [] then head
    else
      var e := d[|d| - 1];
      KeptAfter(head, d[..|d| - 1]) + (if IsNoise(e.1) then [] else [EntryLine(e.0, e.1)])
  }

  lemma {:induction false} KeptAfterHead(head: seq<string>, d: Dict<Cell>)
    ensures KeptAfter(head, d) == head + KeptLines(d)
  {
    if d != [] {
      KeptAfterHead(head, d[..|d| - 1]);
    }
  }

  function MarkdownLines(r: Record): seq<string> {
    [ContextLine(r), TitleLine(r)] + KeptLines(r.data)
  }

  /** The text chunk_to_markdown returns. */
  function Markdown(r: Record): string {
    Join("\n", MarkdownLines(r))
  }

  /** The context line and the title line chunk_to_markdown starts with. */
  method HeadBlock(r: Record) returns (lines: seq<string>)
    ensures lines == [ContextLine(r), TitleLine(r)]
  {
    lines := [];
    var section := if r.globalHeader != [] then r.globalHeader[0] else "General";
    var source := if r.sourceFile.Some? then r.sourceFile.value else "Unknown Source";
    lines := lines + ["Context: " + source + " | Section: " + section];
    var title := if r.subheaders != [] then Join(" | ", r.subheaders) else "Data Row";
    lines := lines + ["### " + title];
  }

  /** One turn of the entry loop: entry i adds its line unless its value is noise. */
  lemma KeptAfterStep(head: seq<string>, d: Dict<Cell>, i: nat)
    requires i < |d|
    ensures KeptAfter(head, d[..i + 1]) ==
      KeptAfter(head, d[..i]) + (if IsNoise(d[i].1) then [] else [EntryLine(d[i].0, d[i].1)])
  {
    assert d[..i + 1][..i] == d[..i];
    assert d[..i + 1][i] == d[i];
  }

  /** chunk_to_markdown */
  method ChunkToMarkdown(r: Record) returns (text: string)
    ensures text == Markdown(r)
  {
    var lines := HeadBlock(r);
    ghost var head := lines;
    var i := 0;
    while i < |r.data|
      invariant 0 <= i <= |r.data|
      invariant lines == KeptAfter(head, r.data[..i])
    {
      var k := r.data[i].0;
      var v := r.data[i].1;
      KeptAfterStep(head, r.data, i);
      if !IsNoise(v) {
        lines := lines + ["- **" + k + "**: " + CellText(v)];
      }
      i := i + 1;
    }
    assert r.data[..|r.data|] == r.data;
    KeptAfterHead(head, r.data);
    text := Join("\n", lines);
  }

  /** The markdown has at least the context line and the title line, in that order, and then
      one line per kept data entry; so it is never empty, and the `if not text` of load_chunks
      never skips a chunk. */
  lemma MarkdownSpec(r: Record)
    ensures |MarkdownLines(r)| == 2 + |KeptLines(r.data)|
    ensures MarkdownLines(r)[0] == ContextLine(r) && MarkdownLines(r)[1] == TitleLine(r)
    ensures MarkdownLines(r)[2..] == KeptLines(r.data)
    ensures Markdown(r) != ""
  {
  }

  /** For a chunk written by the chunker the context line names its workbook, never
      "Unknown Source" in its place, and the first global header line or "General". */
  lemma ContextOfChunk(ch: ChunkBuilder.Chunk)
    ensures ContextLine(FromChunk(ch)) ==
      "Context: " + ch.sourceFile + " | Section: " + (if ch.globalHeader != [] then ch.globalHeader[0] else "General")
  {
  }

  /** Keeping lines distributes over a split of the entries, so the kept lines follow the
      insertion order of the dict. */
  lemma {:induction false} KeptLinesAppend(d1: Dict<Cell>, d2: Dict<Cell>)
    ensures KeptLines(d1 + d2) == KeptLines(d1) + KeptLines(d2)
    decreases |d2|
  {
    if d2 != [] {
      var init := d2[..|d2| - 1];
      assert (d1 + d2)[..|d1 + d2| - 1] == d1 + init;
      KeptLinesAppend(d1, init);
    } else {
      assert d1 + d2 == d1;
    }
  }

  /** The line of entry i, when it is not noise, comes right after the lines of the entries
      before it. */
  lemma KeptLineAt(d: Dict<Cell>, i: nat)
    requires i < |d| && !IsNoise(d[i].1)
    ensures |KeptLines(d[..i])| < |KeptLines(d)| && KeptLines(d)[|KeptLines(d[..i])|] == EntryLine(d[i].0, d[i].1)
  {
    assert d == d[..i + 1] + d[i + 1..];
    KeptLinesAppend(d[..i + 1], d[i + 1..]);
    assert d[..i + 1][..i] == d[..i];
    assert KeptLines(d[..i + 1]) == KeptLines(d[..i]) + [EntryLine(d[i].0, d[i].1)];
  }

  /** Entry i has its line among the data lines. */
  predicate HasLine(d: Dict<Cell>, i: nat)
    requires i < |d|
  {
    exists j :: 0 <= j < |KeptLines(d)| && KeptLines(d)[j] == EntryLine(d[i].0, d[i].1)
  }

  /** Every entry that is not noise has its line among the data lines. */
  lemma KeptLinesComplete(d: Dict<Cell>)
    ensures forall i :: 0 <= i < |d| && !IsNoise(d[i].1) ==> HasLine(d, i)
  {
    forall i | 0 <= i < |d| && !IsNoise(d[i].1)
      ensures HasLine(d, i)
    {
      KeptLineAt(d, i);
      var j := |KeptLines(d[..i])|;
      assert 0 <= j < |KeptLines(d)| && KeptLines(d)[j] == EntryLine(d[i].0, d[i].1);
    }
  }

  /** Every line is the line of an entry that is not noise. */
  lemma {:induction false} KeptLinesSound(d: Dict<Cell>)
    ensures forall j :: 0 <= j < |KeptLines(d)| ==>
      (exists i :: 0 <= i < |d| && !IsNoise(d[i].1) && KeptLines(d)[j] == EntryLine(d[i].0, d[i].1))
  {
    if d == [] {
      assert KeptLines(d) == [];
    } else {
      var init := d[..|d| - 1];
      var e := d[|d| - 1];
      KeptLinesSound(init);
      var tail: seq<string> := if IsNoise(e.1) then [] else [EntryLine(e.0, e.1)];
      assert KeptLines(d) == KeptLines(init) + tail;
      forall j | 0 <= j < |KeptLines(d)|
        ensures exists i :: 0 <= i < |d| && !IsNoise(d[i].1) && KeptLines(d)[j] == EntryLine(d[i].0, d[i].1)
      {
        if j < |KeptLines(init)| {
          var i :| 0 <= i < |init| && !IsNoise(init[i].1) && KeptLines(init)[j] == EntryLine(init[i].0, init[i].1);
          assert d[i] == init[i];
        } else {
          assert !IsNoise(e.1) && KeptLines(d)[j] == EntryLine(e.0, e.1);
        }
      }
    }
  }

  /** No data line at all exactly when every value is noise. */
  lemma {:induction false} KeptLinesEmpty(d: Dict<Cell>)
    ensures KeptLines(d) == [] <==> forall i :: 0 <= i < |d| ==> IsNoise(d[i].1)
  {
    if d != [] {
      var init := d[..|d| - 1];
      KeptLinesEmpty(init);
      assert forall i :: 0 <= i < |init| ==> init[i] == d[i];
    }
  }

  // ---------------------------------------------------------------------------------------
  // load_chunks
  // ---------------------------------------------------------------------------------------

  /** The metadata dict of one chunk; an absent key is None here as in c.get. */
  datatype Meta = Meta(
    sourceFile: Wrappers.Option<string>,
    sheetName: Wrappers.Option<string>,
    excelRowNumber: Wrappers.Option<nat>,
    path: string)

  /** The files that json.load could read, with their paths, in rglob order. */
  function Loaded(files: seq<ChunkFile>): (l: seq<(string, Record)>)
    ensures |l| <= |files|
  {
    if files == [] then []
    else
      var f := files[|files| - 1];
      Loaded(files[..|files| - 1]) + (if f.content.Some? then [(f.path, f.content.value)] else [])
  }

  /** The number of files json.load could read. */
  function LoadableCount(files: seq<ChunkFile>): nat {
    if files == [] then 0
    else LoadableCount(files[..|files| - 1]) + (if files[|files| - 1].content.Some? then 1 else 0)
  }

  /** A file json.load could read, i.e. the number k of readable files before it, is entry k of
      the loaded list, with its path and content. */
  lemma {:induction false} LoadedAt(files: seq<ChunkFile>, k: nat)
    requires k < |files| && files[k].content.Some?
    ensures LoadableCount(files[..k]) < |Loaded(files)|
    ensures Loaded(files)[LoadableCount(files[..k])] == (files[k].path, files[k].content.value)
    decreases |files|
  {
    var init := files[..|files| - 1];
    LoadedSpecLength(init);
    if k == |files| - 1 {
      assert files[..k] == init;
    } else {
      assert init[..k] == files[..k] && init[k] == files[k];
      LoadedAt(init, k);
    }
  }

  lemma {:induction false} LoadedSpecLength(files: seq<ChunkFile>)
    ensures |Loaded(files)| == LoadableCount(files)
  {
    if files != [] {
      LoadedSpecLength(files[..|files| - 1]);
    }
  }

  /** The loaded list holds exactly the readable files, in rglob order: one entry per readable
      file, and the entry of a readable file sits after those of the readable files before it.
      A file json.load could not read is skipped. */
  lemma LoadedSpec(files: seq<ChunkFile>)
    ensures |Loaded(files)| == LoadableCount(files)
    ensures forall k :: 0 <= k < |files| && files[k].content.Some? ==>
      LoadableCount(files[..k]) < |Loaded(files)| &&
      Loaded(files)[LoadableCount(files[..k])] == (files[k].path, files[k].content.value)
  {
    LoadedSpecLength(files);
    forall k | 0 <= k < |files| && files[k].content.Some?
      ensures LoadableCount(files[..k]) < |Loaded(files)| &&
        Loaded(files)[LoadableCount(files[..k])] == (files[k].path, files[k].content.value)
    {
      LoadedAt(files, k);
    }
  }

  function MetaOf(path: string, r: Record): Meta {
    Meta(r.sourceFile, r.sheetName, r.excelRowNumber, path)
  }

  /** docs, metas and ids as load_chunks builds them, file by file. */
  function LoadedLists(files: seq<ChunkFile>): (seq<string>, seq<Meta>, seq<string>) {
    if files == [] then ([], [], [])
    else
      var prev := LoadedLists(files[..|files| - 1]);
      var f := files[|files| - 1];
      if f.content.Some? then
        (prev.0 + [Markdown(f.content.value)], prev.1 + [MetaOf(f.path, f.content.value)], prev.2 + [ChunkId(f.content.value)])
      else prev
  }

  /** load_chunks, with rglob and json.load given as the list of files and what loading each
      gave. */
  method LoadChunks(files: seq<ChunkFile>) returns (docs: seq<string>, metas: seq<Meta>, ids: seq<string>)
    ensures (docs, metas, ids) == LoadedLists(files)
  {
    docs, metas, ids := [], [], [];
    var k := 0;
    while k < |files|
      invariant 0 <= k <= |files|
      invariant (docs, metas, ids) == LoadedLists(files[..k])
    {
      assert files[..k + 1][..k] == files[..k];
      var fp := files[k];
      if fp.content.Some? {
        var c := fp.content.value;
        var text := ChunkToMarkdown(c);
        MarkdownSpec(c);
        if text != "" {
          var chunkId := OptText(c.sourceFile) + "__" + OptText(c.sheetName) + "__row_" + OptRowText(c.excelRowNumber);
          docs := docs + [text];
          ids := ids + [chunkId];
          metas := metas + [Meta(c.sourceFile, c.sheetName, c.excelRowNumber, fp.path)];
        }
      }
      k := k + 1;
    }
    assert files[..|files|] == files;
  }

  /** The three lists have one entry per readable file, in order: its markdown, its metadata
      and its id; no readable file is skipped. */
  lemma {:induction false} LoadedListsSpec(files: seq<ChunkFile>)
    ensures var (docs, metas, ids) := LoadedLists(files);
      |docs| == |Loaded(files)| && |metas| == |docs| && |ids| == |docs| &&
      forall i :: 0 <= i < |docs| ==>
        docs[i] == Markdown(Loaded(files)[i].1) &&
        metas[i] == MetaOf(Loaded(files)[i].0, Loaded(files)[i].1) &&
        ids[i] == ChunkId(Loaded(files)[i].1)
  {
    if files != [] {
      LoadedListsSpec(files[..|files| - 1]);
    }
  }

  // ---------------------------------------------------------------------------------------
  // The batch loop of main
  // ---------------------------------------------------------------------------------------

  const BatchSize: nat := 100
  const ProgressEvery: nat := 500

  function MinNat(a: nat, b: nat): nat {
    if a <= b then a else b
  }

  /** The number of batches: one per start in range(0, total, BATCH_SIZE). */
  function BatchCount(total: nat): nat {
    (total + BatchSize - 1) / BatchSize
  }

  /** The range [start, end) of batch i. */
  function BatchRange(total: nat, i: nat): (nat, nat) {
    (i * BatchSize, MinNat(i * BatchSize + BatchSize, total))
  }

  /** end % PROGRESS_EVERY == 0 or end == total */
  predicate Reports(total: nat, end: nat) {
    end % ProgressEvery == 0 || end == total
  }

  /** The batches partition [0, total): the first starts at 0, each ends where the next
      starts, the last ends at total, and each holds between 1 and BATCH_SIZE chunks. */
  lemma BatchRangesPartition(total: nat)
    ensures total > 0 ==> BatchCount(total) > 0 && BatchRange(total, 0).0 == 0
    ensures total > 0 ==> BatchRange(total, BatchCount(total) - 1).1 == total
    ensures forall i :: 0 <= i < BatchCount(total) - 1 ==> BatchRange(total, i).1 == BatchRange(total, i + 1).0
    ensures forall i :: 0 <= i < BatchCount(total) ==>
      BatchRange(total, i).0 < BatchRange(total, i).1 <= total &&
      BatchRange(total, i).1 - BatchRange(total, i).0 <= BatchSize
  {
  }

  /** The chunks of the first n batches, one slice after the other. */
  function Batched<T>(xs: seq<T>, n: nat): seq<T>
    requires n <= BatchCount(|xs|)
  {
    if n == 0 then []
    else
      var r := BatchRange(|xs|, n - 1);
      Batched(xs, n - 1) + xs[r.0..r.1]
  }

  /** The slices handed to collection.add, taken together, are all the chunks, once each and
      in order. */
  lemma {:induction false} BatchedPrefix<T>(xs: seq<T>, n: nat)
    requires n <= BatchCount(|xs|)
    ensures Batched(xs, n) == xs[..MinNat(n * BatchSize, |xs|)]
  {
    if n > 0 {
      BatchedPrefix(xs, n - 1);
      var r := BatchRange(|xs|, n - 1);
      assert xs[..r.0] + xs[r.0..r.1] == xs[..r.1];
    }
  }

  lemma BatchedAll<T>(xs: seq<T>)
    ensures Batched(xs, BatchCount(|xs|)) == xs
  {
    BatchedPrefix(xs, BatchCount(|xs|));
    assert xs[..|xs|] == xs;
  }

  /** The ends of the given ranges that print a progress line, in order. */
  function ReportedEnds(total: nat, rs: seq<(nat, nat)>): seq<nat> {
    if rs == [] then []
    else
      var e := rs[|rs| - 1].1;
      ReportedEnds(total, rs[..|rs| - 1]) + (if Reports(total, e) then [e] else [])
  }

  /** An end is reported exactly when it is the end of one of the ranges and reports. */
  lemma {:induction false} ReportedEndsMembers(total: nat, rs: seq<(nat, nat)>)
    ensures forall e :: e in ReportedEnds(total, rs) <==> (exists i :: 0 <= i < |rs| && rs[i].1 == e && Reports(total, e))
  {
    if rs != [] {
      var init := rs[..|rs| - 1];
      var last := rs[|rs| - 1].1;
      ReportedEndsMembers(total, init);
      assert ReportedEnds(total, rs) == ReportedEnds(total, init) + (if Reports(total, last) then [last] else []);
      forall e | e in ReportedEnds(total, rs)
        ensures exists i :: 0 <= i < |rs| && rs[i].1 == e && Reports(total, e)
      {
        if e in ReportedEnds(total, init) {
          var i :| 0 <= i < |init| && init[i].1 == e && Reports(total, e);
          assert rs[i] == init[i];
        } else {
          assert rs[|rs| - 1].1 == e;
        }
      }
      forall e | exists i :: 0 <= i < |rs| && rs[i].1 == e && Reports(total, e)
        ensures e in ReportedEnds(total, rs)
      {
        var i :| 0 <= i < |rs| && rs[i].1 == e && Reports(total, e);
        if i < |init| {
          assert init[i] == rs[i];
          assert e in ReportedEnds(total, init);
        }
      }
    }
  }

  /** An end is reported exactly when it is the end of one of the ranges and reports; when the
      last range reports, its end is the last one reported. */
  lemma ReportedEndsSpec(total: nat, rs: seq<(nat, nat)>)
    ensures forall e :: e in ReportedEnds(total, rs) <==> (exists i :: 0 <= i < |rs| && rs[i].1 == e && Reports(total, e))
    ensures rs != [] && Reports(total, rs[|rs| - 1].1) ==>
      ReportedEnds(total, rs) != [] && ReportedEnds(total, rs)[|ReportedEnds(total, rs)| - 1] == rs[|rs| - 1].1
  {
    ReportedEndsMembers(total, rs);
  }

  /** The batch loop of main: the ranges handed to collection.add, in order, and the ends that
      print a progress line; the last batch always prints one. */
  method AddInBatches(total: nat) returns (ranges: seq<(nat, nat)>, reported: seq<nat>)
    ensures |ranges| == BatchCount(total)
    ensures forall i :: 0 <= i < |ranges| ==> ranges[i] == BatchRange(total, i)
    ensures reported == ReportedEnds(total, ranges)
    ensures forall e :: e in reported <==> (exists i :: 0 <= i < |ranges| && ranges[i].1 == e && Reports(total, e))
    ensures total > 0 ==> reported != [] && reported[|reported| - 1] == total
  {
    ranges, reported := [], [];
    var start := 0;
    while start < total
      invariant start == |ranges| * BatchSize
      invariant |ranges| <= BatchCount(total)
      invariant forall i :: 0 <= i < |ranges| ==> ranges[i] == BatchRange(total, i)
      invariant reported == ReportedEnds(total, ranges)
      decreases total - start
    {
      var end := MinNat(start + BatchSize, total);
      assert (ranges + [(start, end)])[..|ranges|] == ranges;
      ranges := ranges + [(start, end)];
      if end % ProgressEvery == 0 || end == total {
        reported := reported + [end];
      }
      start := start + BatchSize;
    }
    ReportedEndsSpec(total, ranges);
    BatchRangesPartition(total);
  }
}
