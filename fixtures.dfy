/** The fixture of test_hockey_scrape.py and the outcomes its tests expect, plus a small page of
    rows exercising each way a row can fail or default during extraction. */
module Fixtures {
  import opened Options
  import opened IntText
  import opened TeamData
  import opened Extraction
  import opened Skipping
  import opened WinnersLosers

  const TeamA := TeamRecord("Team A", "1990", 10, 5, 2, "60%", 50, 40, "+10")
  const TeamB := TeamRecord("Team B", "1990", 12, 3, 1, "75%", 60, 30, "+30")
  const TeamC := TeamRecord("Team C", "1991", 20, 10, 5, "60%", 70, 50, "+20")
  const TeamD := TeamRecord("Team D", "1991", 15, 12, 3, "55%", 65, 60, "+5")

  function MockTeamData(): seq<TeamRecord> { [TeamA, TeamB, TeamC, TeamD] }

  /** `test_process_team_data`. */
  lemma ProcessMockTeamData()
    ensures var c := ProcessTeamData(MockTeamData());
      && |c.teamName| == 4
      && c.teamName[0] == "Team A"
      && c.year[1] == "1990"
      && c.win[2] == 20
      && c.goalsFor[3] == 65
      && c.plusMinus[1] == "+30"
  {
    var c := ProcessTeamData(MockTeamData());
    assert RecordAt(c, 0) == TeamA;
    assert RecordAt(c, 1) == TeamB;
    assert RecordAt(c, 2) == TeamC;
    assert RecordAt(c, 3) == TeamD;
  }

  /** `test_calculate_winner_loser`: 1990 is won by Team B and lost by Team A, 1991 is won by
      Team C and lost by Team D; the years come in that order. */
  lemma WinnersLosersOfMockTeamData()
    ensures Aggregate(MockTeamData()) == Summary(["1990", "1991"], map[
      "1990" := Entry(Standing("Team B", 12), Standing("Team A", 5)),
      "1991" := Entry(Standing("Team C", 20), Standing("Team D", 12))])
  {
    var data := MockTeamData();
    assert data[..3][..2] == [TeamA, TeamB];
    assert data[..3][..2][..1] == [TeamA];
    assert data[..3][..2][..1][..0] == [];
    assert Aggregate([TeamA]) == Summary(["1990"], map["1990" := Seed(TeamA)]);
    assert Aggregate([TeamA, TeamB]) == Summary(["1990"], map[
      "1990" := Entry(Standing("Team B", 12), Standing("Team A", 5))]);
    assert Aggregate(data[..3]) == Summary(["1990", "1991"], map[
      "1990" := Entry(Standing("Team B", 12), Standing("Team A", 5)),
      "1991" := Seed(TeamC)]);
  }

  /** A row with every cell present and well formed. */
  const GoodRow: Row := map[NameCell := "Boston Bruins", YearCell := "1990", WinsCell := "44",
    LossesCell := "24", OtLossesCell := "", PctCell := "0.55", GoalsForCell := "299",
    GoalsAgainstCell := "264", DiffCell := "35"]

  /** Blank counts and a blank differential. */
  const BlankRow: Row := GoodRow[WinsCell := ""][GoalsForCell := ""][DiffCell := ""]

  /** The goals-against cell is absent. */
  const MissingCellRow: Row := map k | k in GoodRow && k != GoalsAgainstCell :: GoodRow[k]

  /** The losses cell holds text `int` rejects. */
  const BadCountRow: Row := GoodRow[LossesCell := "n/a"]

  lemma ParseDecimals()
    ensures ParseInt("44") == Some(44) && ParseInt("24") == Some(24)
    ensures ParseInt("299") == Some(299) && ParseInt("264") == Some(264)
  {
    ParseShowInt(44);
    ParseShowInt(24);
    ParseShowInt(299);
    ParseShowInt(264);
    assert ShowInt(44) == "44";
    assert ShowInt(24) == "24";
    assert ShowNat(29) == "29";
    assert ShowInt(299) == "299";
    assert ShowNat(26) == "26";
    assert ShowInt(264) == "264";
  }

  lemma ExtractGoodRow()
    ensures ExtractRecord(GoodRow) ==
      Some(TeamRecord("Boston Bruins", "1990", 44, 24, 0, "0.55", 299, 264, "35"))
  {
    ParseDecimals();
  }

  lemma ExtractBlankRow()
    ensures ExtractRecord(BlankRow) ==
      Some(TeamRecord("Boston Bruins", "1990", 0, 24, 0, "0.55", 0, 264, "0"))
  {
    ParseDecimals();
  }

  lemma ExtractMissingCellRow()
    ensures ExtractRecord(MissingCellRow) == None
  {
    assert GoalsAgainstCell !in MissingCellRow;
  }

  lemma ExtractBadCountRow()
    ensures ExtractRecord(BadCountRow) == None
  {
    assert BadCountRow[LossesCell] == "n/a" && "n/a"[0] == 'n';
  }

  /** Four items of which the first and the last succeed keep those two values. */
  lemma KeptFirstAndLast<A, B>(f: A -> Option<B>, a: A, b: A, c: A, d: A)
    requires f(a).Some? && f(b).None? && f(c).None? && f(d).Some?
    ensures Kept(f, [a, b, c, d]) == [f(a).value, f(d).value]
  {
    KeptSnoc(f, [], a);
    assert [] + [a] == [a];
    KeptSnoc(f, [a], b);
    assert [a] + [b] == [a, b];
    KeptSnoc(f, [a, b], c);
    assert [a, b] + [c] == [a, b, c];
    KeptSnoc(f, [a, b, c], d);
    assert [a, b, c] + [d] == [a, b, c, d];
  }

  lemma FlattenSamplePages()
    ensures Flatten([[GoodRow, MissingCellRow], [BadCountRow, BlankRow]])
            == [GoodRow, MissingCellRow, BadCountRow, BlankRow]
  {
    var pages := [[GoodRow, MissingCellRow], [BadCountRow, BlankRow]];
    assert pages[..1][..0] == [];
    assert pages[..1] == [[GoodRow, MissingCellRow]];
  }

  /** Extraction keeps the good and blank rows, in order, with blanks coerced to 0 and "0", and
      drops the row missing a cell and the row with an unparsable count. */
  lemma ExtractSamplePages()
    ensures Surviving(Flatten([[GoodRow, MissingCellRow], [BadCountRow, BlankRow]])) == [
      TeamRecord("Boston Bruins", "1990", 44, 24, 0, "0.55", 299, 264, "35"),
      TeamRecord("Boston Bruins", "1990", 0, 24, 0, "0.55", 0, 264, "0")]
  {
    FlattenSamplePages();
    ExtractGoodRow();
    ExtractBlankRow();
    ExtractMissingCellRow();
    ExtractBadCountRow();
    KeptFirstAndLast(ExtractRecord, GoodRow, MissingCellRow, BadCountRow, BlankRow);
  }
}
