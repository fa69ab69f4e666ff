/** A chunk file as the two apps read it back with json.load: a dict in which each key the apps
    look at may be absent. Also the two formats both apps share: the chunk id and the line of
    one data entry. */
module ChunkFiles {
  import Wrappers
  import opened Strings
  import opened Dicts
  import opened Cells
  import ChunkBuilder

  /** The keys of a loaded chunk. An absent source_file, sheet_name or excel_row_number is
      None; an absent global_header, subheaders or data reads as the empty list or dict, which
      is what every c.get(key, default) and every truth test in the apps makes of it. */
  datatype Record = Record(
    sourceFile: Wrappers.Option<string>,
    sheetName: Wrappers.Option<string>,
    excelRowNumber: Wrappers.Option<nat>,
    globalHeader: seq<string>,
    subheaders: seq<string>,
    data: Dict<Cell>)

  /** A *.json file found under the chunk directory: its path and what json.load made of it,
      None when loading raised. */
  datatype ChunkFile = ChunkFile(path: string, content: Wrappers.Option<Record>)

  /** What json.dump followed by json.load makes of a chunk written by the chunker. */
  function FromChunk(ch: ChunkBuilder.Chunk): (r: Record)
    ensures r.sourceFile == Wrappers.Some(ch.sourceFile) && r.sheetName == Wrappers.Some(ch.sheetName)
    ensures r.excelRowNumber == Wrappers.Some(ch.excelRowNumber)
    ensures r.globalHeader == ch.globalHeader && r.subheaders == ch.subheaders && r.data == ch.data
  {
    Record(Wrappers.Some(ch.sourceFile), Wrappers.Some(ch.sheetName), Wrappers.Some(ch.excelRowNumber),
           ch.globalHeader, ch.subheaders, ch.data)
  }

  /** f"{x}" for a string value that may be None. */
  function OptText(x: Wrappers.Option<string>): string {
    if x.Some? then x.value else "None"
  }

  /** f"{x}" for a row number that may be None. */
  function OptRowText(x: Wrappers.Option<nat>): string {
    if x.Some? then NatToString(x.value) else "None"
  }

  /** f"{source_file}__{sheet_name}__row_{excel_row_number}" */
  function ChunkId(r: Record): string {
    OptText(r.sourceFile) + "__" + OptText(r.sheetName) + "__row_" + OptRowText(r.excelRowNumber)
  }

  /** Within one file and sheet, the id tells the row: two chunks of the same sheet with
      different row numbers never share an id. */
  lemma ChunkIdRowInjective(a: Record, b: Record)
    requires a.sourceFile == b.sourceFile && a.sheetName == b.sheetName
    requires a.excelRowNumber.Some? && b.excelRowNumber.Some?
    requires ChunkId(a) == ChunkId(b)
    ensures a.excelRowNumber == b.excelRowNumber
  {
    var p := OptText(a.sourceFile) + "__" + OptText(a.sheetName) + "__row_";
    var na := NatToString(a.excelRowNumber.value);
    var nb := NatToString(b.excelRowNumber.value);
    assert ChunkId(a) == p + na && ChunkId(b) == p + nb;
    assert na == ChunkId(a)[|p|..] && nb == ChunkId(b)[|p|..];
    NatToStringInjective(a.excelRowNumber.value, b.excelRowNumber.value);
  }

  /** Across files the id is not unique: a "__" inside a file or sheet name lets two chunks of
      different workbooks share an id. */
  lemma ChunkIdAcrossFiles()
    ensures var a := Record(Wrappers.Some("a__b"), Wrappers.Some("c"), Wrappers.Some(3), [], [], []);
            var b := Record(Wrappers.Some("a"), Wrappers.Some("b__c"), Wrappers.Some(3), [], [], []);
            a.sourceFile != b.sourceFile && ChunkId(a) == ChunkId(b)
  {
    assert NatToString(3) == "3";
  }

  /** f"- **{k}**: {v}": the line of one data entry. */
  function EntryLine(k: string, v: Cell): (line: string)
    ensures |line| >= 8 + |k| && line[..4] == "- **"
    ensures line[4..4 + |k|] == k
  {
    "- **" + k + "**: " + CellText(v)
  }
}
