/** streamlit_app.py: the titled markdown of a chunk and the lists index_uploaded_chunks hands
    to a fresh collection. */
module StreamlitApp {
  import Wrappers
  import opened Strings
  import opened Dicts
  import opened Cells
  import opened ChunkFiles

  const MaxTitle: nat := 120
  const MaxEntries: nat := 12

  /** title_parts: the last global header line, then the first subheader, each when the list
      is not empty. */
  function TitleParts(r: Record): (parts: seq<string>)
    ensures |parts| <= 2
  {
    (if r.globalHeader != [] then [r.globalHeader[|r.globalHeader| - 1]] else [])
    + (if r.subheaders != [] then [r.subheaders[0]] else [])
  }

  /** t if len(t) <= 120 else t[:117] + "..." */
  function Heading(t: string): string {
    if |t| <= MaxTitle then t else t[..MaxTitle - 3] + "..."
  }

  /** The heading never exceeds 120 characters; a short title is kept whole, and a longer one
      keeps its first 117 characters and gets "..." to make exactly 120. */
  lemma HeadingSpec(t: string)
    ensures |Heading(t)| <= MaxTitle
    ensures |t| <= MaxTitle ==> Heading(t) == t
    ensures |t| > MaxTitle ==> |Heading(t)| == MaxTitle && Heading(t)[..117] == t[..117] && Heading(t)[117..] == "..."
  {
  }

  /** The lines head followed by the lines of the first n data entries. */
  function EntryLines(head: seq<string>, d: Dict<Cell>, n: nat): (lines: seq<string>)
    requires n <= |d|
    ensures |lines| == |head| + n
  {
    if n == 0 then head else EntryLines(head, d, n - 1) + [EntryLine(d[n - 1].0, d[n - 1].1)]
  }

  /** The heading line, when there is a title part. */
  function HeadingLines(r: Record): (lines: seq<string>)
    ensures |lines| == if TitleParts(r) != [] then 1 else 0
  {
    var parts := TitleParts(r);
    if parts != [] then ["### " + Heading(Join(" | ", parts))] else []
  }

  function Lines(r: Record): seq<string> {
    EntryLines(HeadingLines(r), r.data, if |r.data| <= MaxEntries then |r.data| else MaxEntries)
  }

  /** The text chunk_to_markdown returns. */
  function Markdown(r: Record): string {
    Join("\n", Lines(r))
  }

  /** The heading line chunk_to_markdown starts with, when the chunk has a title part. */
  method HeadingBlock(r: Record) returns (lines: seq<string>)
    ensures lines == HeadingLines(r)
  {
    lines := [];
    var titleParts: seq<string> := [];
    if r.globalHeader != [] {
      titleParts := titleParts + [r.globalHeader[|r.globalHeader| - 1]];
    }
    if r.subheaders != [] {
      titleParts := titleParts + [r.subheaders[0]];
    }
    assert titleParts == TitleParts(r);
    if titleParts != [] {
      var t := Join(" | ", titleParts);
      lines := lines + ["### " + (if |t| <= 120 then t else t[..117] + "...")];
    }
  }

  /** chunk_to_markdown */
  method ChunkToMarkdown(r: Record) returns (text: string)
    ensures text == Markdown(r)
  {
    var lines := HeadingBlock(r);
    ghost var head := lines;
    var n := if |r.data| <= 12 then |r.data| else 12;
    var i := 0;
    while i < n
      invariant 0 <= i <= n
      invariant lines == EntryLines(head, r.data, i)
    {
      var k := r.data[i].0;
      var v := r.data[i].1;
      lines := lines + ["- **" + k + "**: " + CellText(v)];
      i := i + 1;
    }
    text := Join("\n", lines);
  }

  /** At most one heading line and then the first min(12, len(data)) entries, in insertion
      order and unfiltered. */
  lemma {:induction false} LinesSpec(r: Record)
    ensures var n := if |r.data| <= MaxEntries then |r.data| else MaxEntries;
      var h := if TitleParts(r) != [] then 1 else 0;
      |Lines(r)| == h + n &&
      (TitleParts(r) != [] ==> Lines(r)[0] == "### " + Heading(Join(" | ", TitleParts(r)))) &&
      forall i :: 0 <= i < n ==> Lines(r)[h + i] == EntryLine(r.data[i].0, r.data[i].1)
  {
    var n := if |r.data| <= MaxEntries then |r.data| else MaxEntries;
    EntryLinesAt(HeadingLines(r), r.data, n);
    EntryLinesHead(HeadingLines(r), r.data, n);
    if TitleParts(r) != [] {
      assert Lines(r)[0] == Lines(r)[..1][0];
    }
  }

  lemma {:induction false} EntryLinesAt(head: seq<string>, d: Dict<Cell>, n: nat)
    requires n <= |d|
    ensures forall i :: 0 <= i < n ==> EntryLines(head, d, n)[|head| + i] == EntryLine(d[i].0, d[i].1)
  {
    if n > 0 {
      EntryLinesAt(head, d, n - 1);
    }
  }

  lemma {:induction false} EntryLinesHead(head: seq<string>, d: Dict<Cell>, n: nat)
    requires n <= |d|
    ensures EntryLines(head, d, n)[..|head|] == head
  {
    if n > 0 {
      EntryLinesHead(head, d, n - 1);
    }
  }

  /** The markdown is empty exactly when there is no title part and no data entry: every line
      it has starts with "### " or "- **". */
  lemma MarkdownEmpty(r: Record)
    ensures Markdown(r) == "" <==> TitleParts(r) == [] && r.data == []
  {
    var n := if |r.data| <= MaxEntries then |r.data| else MaxEntries;
    LinesSpec(r);
    if r.data != [] {
      var h := if TitleParts(r) != [] then 1 else 0;
      assert Lines(r)[h + 0] == EntryLine(r.data[0].0, r.data[0].1);
    }
    if TitleParts(r) != [] {
      assert Lines(r)[0][..4] == "### ";
    }
  }

  /** The metadata of an uploaded chunk: str() of each value, "None" for an absent key. */
  datatype Meta = Meta(sourceFile: string, sheetName: string, excelRowNumber: string)

  function MetaOf(r: Record): Meta {
    Meta(OptText(r.sourceFile), OptText(r.sheetName), OptRowText(r.excelRowNumber))
  }

  /** docs, metas and ids as index_uploaded_chunks builds them: files that could not be
      loaded and chunks with empty markdown are skipped. */
  function IndexedLists(files: seq<ChunkFile>): (seq<string>, seq<Meta>, seq<string>) {
    if files == [] then ([], [], [])
    else
      var prev := IndexedLists(files[..|files| - 1]);
      var f := files[|files| - 1];
      if f.content.Some? && Markdown(f.content.value) != "" then
        (prev.0 + [Markdown(f.content.value)], prev.1 + [MetaOf(f.content.value)], prev.2 + [ChunkId(f.content.value)])
      else prev
  }

  /** The chunks that reach the collection: those loaded, whose markdown is not empty, in
      rglob order. */
  function Indexed(files: seq<ChunkFile>): seq<Record> {
    if files == [] then []
    else
      var f := files[|files| - 1];
      Indexed(files[..|files| - 1]) + (if f.content.Some? && Markdown(f.content.value) != "" then [f.content.value] else [])
  }

  /** What index_uploaded_chunks passes to collection.add, or None when no document is left. */
  method IndexUploadedChunks(files: seq<ChunkFile>) returns (added: Wrappers.Option<(seq<string>, seq<Meta>, seq<string>)>)
    ensures added == (if IndexedLists(files).0 == [] then Wrappers.None else Wrappers.Some(IndexedLists(files)))
  {
    var docs: seq<string> := [];
    var metas: seq<Meta> := [];
    var ids: seq<string> := [];
    var k := 0;
    while k < |files|
      invariant 0 <= k <= |files|
      invariant (docs, metas, ids) == IndexedLists(files[..k])
    {
      assert files[..k + 1][..k] == files[..k];
      var fp := files[k];
      if fp.content.Some? {
        var c := fp.content.value;
        var md := ChunkToMarkdown(c);
        if md != "" {
          docs := docs + [md];
          ids := ids + [OptText(c.sourceFile) + "__" + OptText(c.sheetName) + "__row_" + OptRowText(c.excelRowNumber)];
          metas := metas + [Meta(OptText(c.sourceFile), OptText(c.sheetName), OptRowText(c.excelRowNumber))];
        }
      }
      k := k + 1;
    }
    assert files[..|files|] == files;
    if docs == [] {
      return Wrappers.None;
    }
    return Wrappers.Some((docs, metas, ids));
  }

  /** The indexed chunks: docs, metas and ids stay parallel and no doc is empty. */
  lemma {:induction false} IndexedListsParallel(files: seq<ChunkFile>)
    ensures |IndexedLists(files).1| == |IndexedLists(files).0| && |IndexedLists(files).2| == |IndexedLists(files).0|
    ensures forall i :: 0 <= i < |IndexedLists(files).0| ==> IndexedLists(files).0[i] != ""
  {
    if files != [] {
      IndexedListsParallel(files[..|files| - 1]);
    }
  }

  /** One entry of docs, metas and ids per indexed chunk, in order: its markdown, its
      metadata and its id. */
  lemma {:induction false} IndexedListsSpec(files: seq<ChunkFile>)
    ensures var (docs, metas, ids) := IndexedLists(files);
      |docs| == |Indexed(files)| && |metas| == |docs| && |ids| == |docs| &&
      forall i :: 0 <= i < |docs| ==>
        docs[i] == Markdown(Indexed(files)[i]) &&
        metas[i] == MetaOf(Indexed(files)[i]) &&
        ids[i] == ChunkId(Indexed(files)[i])
  {
    if files != [] {
      IndexedListsSpec(files[..|files| - 1]);
    }
  }

  /** No document is left, and None is returned, exactly when no loaded chunk has a title part
      or a data entry. */
  lemma {:induction false} IndexedListsEmpty(files: seq<ChunkFile>)
    ensures IndexedLists(files).0 == [] <==>
      forall k :: 0 <= k < |files| && files[k].content.Some? ==>
        TitleParts(files[k].content.value) == [] && files[k].content.value.data == []
  {
    if files != [] {
      var init := files[..|files| - 1];
      IndexedListsEmpty(init);
      assert forall k :: 0 <= k < |init| ==> init[k] == files[k];
      var f := files[|files| - 1];
      if f.content.Some? {
        MarkdownEmpty(f.content.value);
      }
    }
  }
}
