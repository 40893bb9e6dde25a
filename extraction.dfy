/** The extraction loop of `main` (hockey_scrape.py:179-196): every page's `tr.team` rows are
    turned into team records, a row that lacks a cell or holds a count that `int` rejects is
    skipped, and the surviving records are appended in page order, then row order.
    The HTML parser is not modelled: a row arrives as the stripped texts of its cells. */
module Extraction {
  import opened Options
  import opened IntText
  import opened TeamData
  import opened Skipping

  /** A `tr.team` row seen through its cells: the class name of each `td` mapped to that cell's
      text with surrounding whitespace stripped. A class name that is not a key is a cell the row
      lacks, for which `team.find(...)` gives `None` and `.text` raises. */
  type Row = map<string, string>

  const NameCell := "name"
  const YearCell := "year"
  const WinsCell := "wins"
  const LossesCell := "losses"
  const OtLossesCell := "ot-losses"
  const PctCell := "pct"
  const GoalsForCell := "gf"
  const GoalsAgainstCell := "ga"
  const DiffCell := "diff"

  predicate HasAllCells(row: Row)
  {
    && NameCell in row && YearCell in row && WinsCell in row && LossesCell in row
    && OtLossesCell in row && PctCell in row && GoalsForCell in row && GoalsAgainstCell in row
    && DiffCell in row
  }

  /** `int(text or 0)`: empty text is 0, other text goes through `int`. */
  function CountOf(text: string): Option<int>
  {
    if text == "" then Some(0) else ParseInt(text)
  }

  /** The five count cells of a row that has them all each coerce. */
  predicate CountsParse(row: Row)
    requires HasAllCells(row)
  {
    && CountTextOk(row[WinsCell]) && CountTextOk(row[LossesCell])
    && CountTextOk(row[OtLossesCell]) && CountTextOk(row[GoalsForCell])
    && CountTextOk(row[GoalsAgainstCell])
  }

  /** A count cell that coerces: empty, or text `int` accepts. */
  predicate CountTextOk(text: string)
  {
    text == "" || ParseInt(text).Some?
  }

  /** The dictionary built inside the `try` block, or `None` where that block raises. */
  function ExtractRecord(row: Row): Option<TeamRecord>
  {
    if !HasAllCells(row) then None
    else
      match (CountOf(row[WinsCell]), CountOf(row[LossesCell]), CountOf(row[OtLossesCell]),
             CountOf(row[GoalsForCell]), CountOf(row[GoalsAgainstCell]))
      case (Some(win), Some(losses), Some(otLosses), Some(goalsFor), Some(goalsAgainst)) =>
        Some(TeamRecord(
          row[NameCell], row[YearCell], win, losses, otLosses, row[PctCell],
          goalsFor, goalsAgainst, if row[DiffCell] == "" then "0" else row[DiffCell]))
      case _ => None
  }

  /** A row becomes a record exactly when all nine cells are present and every count cell is
      empty or holds text `int` accepts. */
  lemma ExtractRecordSucceeds(row: Row)
    ensures ExtractRecord(row).Some? <==> HasAllCells(row) && CountsParse(row)
  {
  }

  /** The record keeps the text cells verbatim, except that an empty differential becomes "0";
      an empty count becomes 0 and any other count is the value `int` gives it. */
  lemma ExtractRecordFields(row: Row, rec: TeamRecord)
    requires ExtractRecord(row) == Some(rec)
    ensures HasAllCells(row)
    ensures rec.teamName == row[NameCell] && rec.year == row[YearCell]
    ensures rec.winPercentage == row[PctCell]
    ensures rec.plusMinus == if row[DiffCell] == "" then "0" else row[DiffCell]
    ensures row[WinsCell] == "" ==> rec.win == 0
    ensures row[WinsCell] != "" ==> ParseInt(row[WinsCell]) == Some(rec.win)
    ensures row[LossesCell] == "" ==> rec.losses == 0
    ensures row[LossesCell] != "" ==> ParseInt(row[LossesCell]) == Some(rec.losses)
    ensures row[OtLossesCell] == "" ==> rec.otLosses == 0
    ensures row[OtLossesCell] != "" ==> ParseInt(row[OtLossesCell]) == Some(rec.otLosses)
    ensures row[GoalsForCell] == "" ==> rec.goalsFor == 0
    ensures row[GoalsForCell] != "" ==> ParseInt(row[GoalsForCell]) == Some(rec.goalsFor)
    ensures row[GoalsAgainstCell] == "" ==> rec.goalsAgainst == 0
    ensures row[GoalsAgainstCell] != "" ==> ParseInt(row[GoalsAgainstCell]) == Some(rec.goalsAgainst)
  {
  }

  /** The cells a record would be scraped from: its texts as they are, its counts in decimal. */
  function RowOf(rec: TeamRecord): Row
  {
    map[NameCell := rec.teamName, YearCell := rec.year, WinsCell := ShowInt(rec.win),
        LossesCell := ShowInt(rec.losses), OtLossesCell := ShowInt(rec.otLosses),
        PctCell := rec.winPercentage, GoalsForCell := ShowInt(rec.goalsFor),
        GoalsAgainstCell := ShowInt(rec.goalsAgainst), DiffCell := rec.plusMinus]
  }

  lemma CountOfShowInt(n: int)
    ensures CountOf(ShowInt(n)) == Some(n)
  {
    ParseShowInt(n);
  }

  lemma RowOfCells(rec: TeamRecord)
    ensures HasAllCells(RowOf(rec))
    ensures var row := RowOf(rec);
      && row[NameCell] == rec.teamName && row[YearCell] == rec.year
      && row[WinsCell] == ShowInt(rec.win) && row[LossesCell] == ShowInt(rec.losses)
      && row[OtLossesCell] == ShowInt(rec.otLosses) && row[PctCell] == rec.winPercentage
      && row[GoalsForCell] == ShowInt(rec.goalsFor) && row[GoalsAgainstCell] == ShowInt(rec.goalsAgainst)
      && row[DiffCell] == rec.plusMinus
  {
  }

  /** A row showing a record's fields extracts back to that record, except that an empty
      differential comes back as "0". */
  lemma ExtractRowOf(rec: TeamRecord)
    ensures ExtractRecord(RowOf(rec)) ==
      Some(rec.(plusMinus := if rec.plusMinus == "" then "0" else rec.plusMinus))
  {
    var row := RowOf(rec);
    RowOfCells(rec);
    CountOfShowInt(rec.win);
    CountOfShowInt(rec.losses);
    CountOfShowInt(rec.otLosses);
    CountOfShowInt(rec.goalsFor);
    CountOfShowInt(rec.goalsAgainst);
  }

  /** The rows of all pages, page after page. */
  function Flatten(pages: seq<seq<Row>>): (rows: seq<Row>)
    ensures pages == [] ==> rows == []
  {
    if pages == [] then [] else Flatten(pages[..|pages| - 1]) + pages[|pages| - 1]
  }

  /** The records `team_data` holds after the rows `rows` have been processed in order. */
  function Surviving(rows: seq<Row>): seq<TeamRecord>
  {
    Kept(ExtractRecord, rows)
  }

  /** The k-th surviving record is extracted from the k-th row that extracts, those rows are taken
      in increasing position, and a row is among them if and only if it extracts. */
  lemma SurvivingIsOrderedFilter(rows: seq<Row>)
    ensures |KeptIndices(ExtractRecord, rows)| == |Surviving(rows)| <= |rows|
    ensures forall k :: 0 <= k < |Surviving(rows)| ==>
              KeptIndices(ExtractRecord, rows)[k] < |rows|
              && ExtractRecord(rows[KeptIndices(ExtractRecord, rows)[k]]) == Some(Surviving(rows)[k])
    ensures forall k, l :: 0 <= k < l < |Surviving(rows)| ==>
              KeptIndices(ExtractRecord, rows)[k] < KeptIndices(ExtractRecord, rows)[l]
    ensures forall i :: 0 <= i < |rows| ==>
              (i in KeptIndices(ExtractRecord, rows) <==> ExtractRecord(rows[i]).Some?)
  {
    KeptIsOrderedFilter(ExtractRecord, rows);
    KeptIndicesExact(ExtractRecord, rows);
  }

  /** A row that lacks one of the nine cells contributes no record. */
  lemma MissingCellDropsRow(before: seq<Row>, row: Row, after: seq<Row>)
    requires !HasAllCells(row)
    ensures Surviving(before + [row] + after) == Surviving(before) + Surviving(after)
  {
    KeptSkipsFailure(ExtractRecord, before, row, after);
  }

  /** A row whose count cell holds non-empty text that `int` rejects contributes no record. */
  lemma UnparsableCountDropsRow(before: seq<Row>, row: Row, after: seq<Row>, cell: string)
    requires HasAllCells(row)
    requires cell in {WinsCell, LossesCell, OtLossesCell, GoalsForCell, GoalsAgainstCell}
    requires row[cell] != "" && ParseInt(row[cell]) == None
    ensures Surviving(before + [row] + after) == Surviving(before) + Surviving(after)
  {
    ExtractRecordSucceeds(row);
    KeptSkipsFailure(ExtractRecord, before, row, after);
  }

  lemma FlattenSnoc(pages: seq<seq<Row>>, p: nat)
    requires p < |pages|
    ensures Flatten(pages[..p + 1]) == Flatten(pages[..p]) + pages[p]
  {
    assert pages[..p + 1][..p] == pages[..p];
  }

  /** The number of rows on all pages together. */
  function TotalRows(pages: seq<seq<Row>>): nat
  {
    if pages == [] then 0 else TotalRows(pages[..|pages| - 1]) + |pages[|pages| - 1]|
  }

  /** Where the rows of page `p` start among all rows. */
  function Offset(pages: seq<seq<Row>>, p: nat): nat
    requires p <= |pages|
  {
    TotalRows(pages[..p])
  }

  /** All pages together hold `TotalRows(pages)` rows. */
  lemma {:induction false} FlattenLength(pages: seq<seq<Row>>)
    ensures |Flatten(pages)| == TotalRows(pages)
  {
    if pages != [] {
      FlattenLength(pages[..|pages| - 1]);
    }
  }

  /** Row r of page p sits among all rows right after the rows of the pages before p. */
  lemma {:induction false} FlattenRowAt(pages: seq<seq<Row>>, p: nat, r: nat)
    requires p < |pages| && r < |pages[p]|
    ensures Offset(pages, p) + r < |Flatten(pages)|
    ensures Flatten(pages)[Offset(pages, p) + r] == pages[p][r]
  {
    var n := |pages| - 1;
    var init := pages[..n];
    assert Flatten(pages) == Flatten(init) + pages[n];
    if p < n {
      FlattenRowAt(init, p, r);
      assert pages[..p] == init[..p];
    } else {
      assert pages[..p] == init;
      FlattenLength(init);
    }
  }

  /** The inner loop: the rows of one page, in order. */
  method ExtractPage(page: seq<Row>) returns (records: seq<TeamRecord>)
    ensures records == Surviving(page)
  {
    records := [];
    for r := 0 to |page|
      invariant records == Surviving(page[..r])
    {
      var team := page[r];
      assert page[..r + 1] == page[..r] + [team];
      KeptSnoc(ExtractRecord, page[..r], team);
      match ExtractRecord(team) {
        case Some(rec) => records := records + [rec];
        case None =>
      }
    }
    assert page[..|page|] == page;
  }

  /** The extraction loop over the fetched pages: each page's records are appended to
      `team_data` in turn. */
  method ExtractTeamData(pages: seq<seq<Row>>) returns (teamData: seq<TeamRecord>)
    ensures teamData == Surviving(Flatten(pages))
  {
    teamData := [];
    for p := 0 to |pages|
      invariant teamData == Surviving(Flatten(pages[..p]))
    {
      var records := ExtractPage(pages[p]);
      KeptAppend(ExtractRecord, Flatten(pages[..p]), pages[p]);
      FlattenSnoc(pages, p);
      teamData := teamData + records;
    }
    assert pages[..|pages|] == pages;
  }
}
