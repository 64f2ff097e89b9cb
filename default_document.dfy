/** CreateDefaultTouchCalcData: the expanded document a new spreadsheet
    starts from. */
module DefaultDocument {
  import opened GoStrings
  import opened Coordinates
  import opened Records
  import opened Validator

  /** A cell of the default document, written as a text record or as a
      formula record. Text is written as it is, not escaped. */
  datatype Cell =
    | TextCell(coord: string, text: string)
    | FormulaCell(coord: string, formula: string)

  /** The record line of a cell. */
  function CellLine(cell: Cell): string
  {
    match cell
    case TextCell(coord, text) => TextRecord(coord, text)
    case FormulaCell(coord, formula) => FormulaRecord(coord, formula)
  }

  /** The `k`-th cell of the default document. Only the cell at C3 depends
      on the argument. */
  function DefaultCell(k: nat, storageBackend: string): Cell
    requires k < 13
  {
    match k
    case 0 => TextCell("A1", "TouchCalc Spreadsheet")
    case 1 => TextCell("B1", "Welcome to your cloud spreadsheet!")
    case 2 => TextCell("A2", "Cell A2")
    case 3 => TextCell("B2", "Cell B2")
    case 4 => FormulaCell("C2", "A2+B2")
    case 5 => TextCell("A3", "Data automatically saves to the cloud")
    case 6 => TextCell("B3", "Storage Backend:")
    case 7 => TextCell("C3", storageBackend)
    case 8 => TextCell("A5", "Try these features:")
    case 9 => TextCell("B5", "\U{2022} Edit any cell by clicking")
    case 10 => TextCell("B6", "\U{2022} Use formulas like =A1+B1")
    case 11 => TextCell("B7", "\U{2022} Auto-save every 30 seconds")
    case 12 => TextCell("B8", "\U{2022} Export to CSV or Excel")
  }

  /** The lines of the default document: the version header, the records of
      the thirteen cells in order, the sheet dimensions. */
  function DefaultLines(storageBackend: string): (lines: seq<string>)
    ensures |lines| == 15
  {
    ["version:1.4"]
      + seq(13, k requires 0 <= k < 13 => CellLine(DefaultCell(k, storageBackend)))
      + ["sheet:c:10:r:20"]
  }

  /** CreateDefaultTouchCalcData: the default lines joined by newlines. */
  function CreateDefaultTouchCalcData(storageBackend: string): (data: string)
    ensures HasPrefix(data, "version:1.4\n")
  {
    Join(DefaultLines(storageBackend), "\n")
  }

  /** `s` holds no newline, stated position by position. */
  predicate NoNewline(s: string)
  {
    forall i :: 0 <= i < |s| ==> s[i] != '\n'
  }

  function Content(cell: Cell): string
  {
    if cell.TextCell? then cell.text else cell.formula
  }

  /** A cell with a valid coordinate and no newline in its content. */
  predicate CellFine(cell: Cell)
  {
    IsValidCoordinate(cell.coord) && NoNewline(Content(cell))
  }

  lemma CellLineOk(cell: Cell)
    requires CellFine(cell)
    ensures LineOk(CellLine(cell))
  {
    match cell
    case TextCell(coord, text) => TextRecordOk(coord, text);
    case FormulaCell(coord, formula) => FormulaRecordOk(coord, formula);
  }

  /** A letter followed by a digit is a coordinate. */
  lemma TwoCharCoordinate(coord: string)
    requires |coord| == 2 && IsUpper(coord[0]) && IsDigit(coord[1])
    ensures IsValidCoordinate(coord)
  {
    assert coord[..1] == [coord[0]] && coord[1..] == [coord[1]];
    assert MatchesCoordinateGrammar(coord);
  }

  lemma FixedTextsFine1()
    ensures NoNewline("TouchCalc Spreadsheet") && NoNewline("Welcome to your cloud spreadsheet!")
    ensures NoNewline("Cell A2") && NoNewline("Cell B2") && NoNewline("A2+B2")
  {
  }

  lemma FixedTextsFine2()
    ensures NoNewline("Data automatically saves to the cloud") && NoNewline("Storage Backend:")
    ensures NoNewline("Try these features:")
  {
  }

  lemma FixedTextsFine3()
    ensures NoNewline("\U{2022} Edit any cell by clicking") && NoNewline("\U{2022} Use formulas like =A1+B1")
    ensures NoNewline("\U{2022} Auto-save every 30 seconds") && NoNewline("\U{2022} Export to CSV or Excel")
  {
  }

  /** Every default cell is fine when the storage label holds no newline. */
  lemma DefaultCellsFine(storageBackend: string)
    requires NoNewline(storageBackend)
    ensures forall k :: 0 <= k < 13 ==> CellFine(DefaultCell(k, storageBackend))
  {
    FixedTextsFine1();
    FixedTextsFine2();
    FixedTextsFine3();
    forall k | 0 <= k < 13 ensures CellFine(DefaultCell(k, storageBackend)) {
      assert k in {0, 1, 2, 3, 4, 5, 6, 7, 8, 9, 10, 11, 12};
      TwoCharCoordinate(DefaultCell(k, storageBackend).coord);
    }
  }

  /** Each line of the default document is fine; the first is the version
      header. */
  lemma DefaultLinesOk(storageBackend: string)
    requires '\n' !in storageBackend
    ensures IsVersionLine(DefaultLines(storageBackend)[0])
    ensures LinesOk(DefaultLines(storageBackend))
  {
    var records := seq(13, k requires 0 <= k < 13 => CellLine(DefaultCell(k, storageBackend)));
    DefaultCellsFine(storageBackend);
    forall k | 0 <= k < 13 ensures LineOk(records[k]) {
      CellLineOk(DefaultCell(k, storageBackend));
    }
    NonCellLineOk("version:1.4");
    NonCellLineOk("sheet:c:10:r:20");
    LinesOkAppend(["version:1.4"], records);
    LinesOkAppend(["version:1.4"] + records, ["sheet:c:10:r:20"]);
  }

  /** The default document splits back into its lines and passes
      ValidateSocialCalcData, whenever the storage label holds no newline. */
  lemma DefaultDocumentIsWellFormed(storageBackend: string)
    requires '\n' !in storageBackend
    ensures Split(CreateDefaultTouchCalcData(storageBackend), '\n') == DefaultLines(storageBackend)
    ensures WellFormed(CreateDefaultTouchCalcData(storageBackend))
  {
    DefaultLinesOk(storageBackend);
    JoinedLinesWellFormed(DefaultLines(storageBackend), 0);
  }
}
