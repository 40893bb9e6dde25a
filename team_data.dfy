/** The team record the scraper builds for each table row, and `process_team_data`
    (hockey_scrape.py:34-47), which turns the list of records into one column per field for the
    "Hockey Data" sheet. The sheet writer (hockey_scrape.py:92-103) reads the columns back row by
    row; `DataSheetRows` is that read-back, and it inverts the transpose. */
module TeamData {

  /** One team's season. Counts are Python integers (unbounded, possibly negative when the page
      says so); the win percentage and the goal differential stay text. */
  datatype TeamRecord = TeamRecord(
    teamName: string,
    year: string,
    win: int,
    losses: int,
    otLosses: int,
    winPercentage: string,
    goalsFor: int,
    goalsAgainst: int,
    plusMinus: string)

  /** The dictionary `process_team_data` returns: one list per field, keyed by the field's name in
      the source ('TeamName', 'Year', 'Win', 'Losses', 'OTLosses', 'WinPercentage',
      'GoalsFor(GF)', 'GoalsAgainst(GA)', '+/-'). */
  datatype Columns = Columns(
    teamName: seq<string>,
    year: seq<string>,
    win: seq<int>,
    losses: seq<int>,
    otLosses: seq<int>,
    winPercentage: seq<string>,
    goalsFor: seq<int>,
    goalsAgainst: seq<int>,
    plusMinus: seq<string>)

  /** The sheet writer iterates over `range(len(team_data['TeamName']))` and indexes every other
      column at the same position, so it needs each column at least that long. */
  predicate CoversNames(c: Columns)
  {
    var n := |c.teamName|;
    |c.year| >= n && |c.win| >= n && |c.losses| >= n && |c.otLosses| >= n
    && |c.winPercentage| >= n && |c.goalsFor| >= n && |c.goalsAgainst| >= n && |c.plusMinus| >= n
  }

  /** All nine columns have one entry per record. */
  predicate Rectangular(c: Columns)
  {
    var n := |c.teamName|;
    |c.year| == n && |c.win| == n && |c.losses| == n && |c.otLosses| == n
    && |c.winPercentage| == n && |c.goalsFor| == n && |c.goalsAgainst| == n && |c.plusMinus| == n
  }

  /** The record found at position `i` across the nine columns. */
  function RecordAt(c: Columns, i: nat): TeamRecord
    requires CoversNames(c) && i < |c.teamName|
  {
    TeamRecord(c.teamName[i], c.year[i], c.win[i], c.losses[i], c.otLosses[i],
               c.winPercentage[i], c.goalsFor[i], c.goalsAgainst[i], c.plusMinus[i])
  }

  /** `process_team_data`: nine columns of length |data|, and reading position i across them gives
      back record i. */
  function ProcessTeamData(data: seq<TeamRecord>): (c: Columns)
    ensures Rectangular(c) && |c.teamName| == |data|
    ensures forall i :: 0 <= i < |data| ==> RecordAt(c, i) == data[i]
  {
    Columns(
      seq(|data|, i requires 0 <= i < |data| => data[i].teamName),
      seq(|data|, i requires 0 <= i < |data| => data[i].year),
      seq(|data|, i requires 0 <= i < |data| => data[i].win),
      seq(|data|, i requires 0 <= i < |data| => data[i].losses),
      seq(|data|, i requires 0 <= i < |data| => data[i].otLosses),
      seq(|data|, i requires 0 <= i < |data| => data[i].winPercentage),
      seq(|data|, i requires 0 <= i < |data| => data[i].goalsFor),
      seq(|data|, i requires 0 <= i < |data| => data[i].goalsAgainst),
      seq(|data|, i requires 0 <= i < |data| => data[i].plusMinus))
  }

  /** The rows the "Hockey Data" sheet receives after its header: one per entry of the
      'TeamName' column. */
  function DataSheetRows(c: Columns): (rows: seq<TeamRecord>)
    requires CoversNames(c)
    ensures |rows| == |c.teamName|
  {
    seq(|c.teamName|, i requires 0 <= i < |c.teamName| => RecordAt(c, i))
  }

  /** The data sheet lists exactly the extracted records, in their order. */
  lemma DataSheetListsRecords(data: seq<TeamRecord>)
    ensures DataSheetRows(ProcessTeamData(data)) == data
  {
    var rows := DataSheetRows(ProcessTeamData(data));
    assert forall i :: 0 <= i < |data| ==> rows[i] == data[i];
  }

  /** Rebuilding records from well-shaped columns and transposing them again gives the same
      columns: the transpose loses nothing in either direction. */
  lemma ColumnsRoundTrip(c: Columns)
    requires Rectangular(c)
    ensures ProcessTeamData(DataSheetRows(c)) == c
  {
    var d := ProcessTeamData(DataSheetRows(c));
    assert d.teamName == c.teamName;
    assert d.year == c.year;
    assert d.win == c.win;
    assert d.losses == c.losses;
    assert d.otLosses == c.otLosses;
    assert d.winPercentage == c.winPercentage;
    assert d.goalsFor == c.goalsFor;
    assert d.goalsAgainst == c.goalsAgainst;
    assert d.plusMinus == c.plusMinus;
  }
}
