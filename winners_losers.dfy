/** `calculate_winner_loser` (hockey_scrape.py:49-61): one left-to-right pass over the records
    that builds, per year, the team with the most wins ("winner") and, independently, the team
    with the most losses ("loser"). A record replaces the current one only on a strict `>`, so of
    several tied teams the first one seen stays. The summary sheet (hockey_scrape.py:129-136)
    lists the years in the dictionary's insertion order, which the model keeps as a sequence. */
module WinnersLosers {
  import opened TeamData

  /** The inner dictionary `{'team': ..., 'wins': ...}`. For the loser, the slot the source
      calls 'wins' holds the team's Losses count (hockey_scrape.py:55,60). */
  datatype Standing = Standing(team: string, wins: int)

  /** `{'winner': ..., 'loser': ...}` for one year. */
  datatype Entry = Entry(winner: Standing, loser: Standing)

  /** The dictionary `winners_losers`: `years` lists its keys in insertion order. */
  datatype Summary = Summary(years: seq<string>, entries: map<string, Entry>)

  /** The entry a year gets from its first record: that team is both winner and loser. */
  function Seed(team: TeamRecord): Entry
  {
    Entry(Standing(team.teamName, team.win), Standing(team.teamName, team.losses))
  }

  /** One iteration of the loop. */
  function Step(s: Summary, team: TeamRecord): Summary
  {
    if team.year !in s.entries then
      Summary(s.years + [team.year], s.entries[team.year := Seed(team)])
    else
      var e := s.entries[team.year];
      var winner := if team.win > e.winner.wins then Standing(team.teamName, team.win) else e.winner;
      var loser := if team.losses > e.loser.wins then Standing(team.teamName, team.losses) else e.loser;
      Summary(s.years, s.entries[team.year := Entry(winner, loser)])
  }

  /** The dictionary after the loop has processed all of `data`. */
  function Aggregate(data: seq<TeamRecord>): Summary
  {
    if data == [] then Summary([], map[])
    else Step(Aggregate(data[..|data| - 1]), data[|data| - 1])
  }

  /** `calculate_winner_loser`, with the dictionary updated in place entry by entry. */
  method CalculateWinnerLoser(data: seq<TeamRecord>) returns (winnersLosers: Summary)
    ensures winnersLosers == Aggregate(data)
  {
    var entries: map<string, Entry> := map[];
    var years: seq<string> := [];
    for i := 0 to |data|
      invariant Summary(years, entries) == Aggregate(data[..i])
    {
      var team := data[i];
      var year := team.year;
      assert data[..i + 1][..i] == data[..i];
      if year !in entries {
        entries := entries[year := Entry(Standing(team.teamName, team.win),
                                         Standing(team.teamName, team.losses))];
        years := years + [year];
      } else {
        if team.win > entries[year].winner.wins {
          entries := entries[year := entries[year].(winner := Standing(team.teamName, team.win))];
        }
        if team.losses > entries[year].loser.wins {
          entries := entries[year := entries[year].(loser := Standing(team.teamName, team.losses))];
        }
      }
    }
    assert data[..|data|] == data;
    winnersLosers := Summary(years, entries);
  }

  // ---------------------------------------------------------------------------------------------
  // What the dictionary means

  /** The two rankings the loop keeps: by wins for the winner, by losses for the loser. */
  datatype Dimension = ByWins | ByLosses

  function Score(team: TeamRecord, d: Dimension): int
  {
    match d
    case ByWins => team.win
    case ByLosses => team.losses
  }

  function Pick(e: Entry, d: Dimension): Standing
  {
    match d
    case ByWins => e.winner
    case ByLosses => e.loser
  }

  /** The years occurring in `data`. */
  ghost function YearSet(data: seq<TeamRecord>): set<string>
  {
    set i | 0 <= i < |data| :: data[i].year
  }

  /** The `Year` field of every record, in input order. */
  function YearColumn(data: seq<TeamRecord>): (ys: seq<string>)
    ensures |ys| == |data| && forall i :: 0 <= i < |data| ==> ys[i] == data[i].year
  {
    seq(|data|, i requires 0 <= i < |data| => data[i].year)
  }

  /** The position of the first `y` in `ys`, or `|ys|` when there is none. */
  function FirstIndex(ys: seq<string>, y: string): (n: nat)
    ensures n <= |ys|
    ensures forall k :: 0 <= k < n ==> ys[k] != y
    ensures n < |ys| <==> y in ys
    ensures n < |ys| ==> ys[n] == y
  {
    if ys == [] then 0
    else if ys[0] == y then 0
    else 1 + FirstIndex(ys[1..], y)
  }

  ghost predicate Distinct(ys: seq<string>)
  {
    forall k, l :: 0 <= k < l < |ys| ==> ys[k] != ys[l]
  }

  /** Record `j` is, among the records of year `y`, the first one with the greatest score. */
  ghost predicate IsEarliestMax(data: seq<TeamRecord>, y: string, j: int, d: Dimension)
  {
    && 0 <= j < |data|
    && data[j].year == y
    && (forall i :: 0 <= i < |data| && data[i].year == y ==> Score(data[i], d) <= Score(data[j], d))
    && (forall i :: 0 <= i < j && data[i].year == y ==> Score(data[i], d) < Score(data[j], d))
  }

  lemma YearSetSnoc(data: seq<TeamRecord>)
    requires data != []
    ensures YearSet(data) == YearSet(data[..|data| - 1]) + {data[|data| - 1].year}
  {
    var init := data[..|data| - 1];
    forall y | y in YearSet(data) ensures y in YearSet(init) + {data[|data| - 1].year} {
      var i :| 0 <= i < |data| && data[i].year == y;
      if i < |init| { assert init[i].year == y; }
    }
    forall y | y in YearSet(init) ensures y in YearSet(data) {
      var i :| 0 <= i < |init| && init[i].year == y;
      assert data[i].year == y;
    }
  }

  /** The dictionary has exactly one key per year in the input: its key set is the set of years,
      and the insertion-order list names each of those years once. */
  lemma {:induction false} KeysAreYears(data: seq<TeamRecord>)
    ensures Aggregate(data).entries.Keys == YearSet(data)
    ensures forall y :: y in Aggregate(data).years <==> y in Aggregate(data).entries
    ensures Distinct(Aggregate(data).years)
  {
    if data != [] {
      KeysAreYears(data[..|data| - 1]);
      YearSetSnoc(data);
    }
  }

  /** The keys iterate in the order in which each year first appears in the input. */
  lemma {:induction false} YearsInFirstAppearanceOrder(data: seq<TeamRecord>)
    ensures forall k :: 0 <= k < |Aggregate(data).years| ==>
              FirstIndex(YearColumn(data), Aggregate(data).years[k]) < |data|
    ensures forall k, l :: 0 <= k < l < |Aggregate(data).years| ==>
              FirstIndex(YearColumn(data), Aggregate(data).years[k])
                < FirstIndex(YearColumn(data), Aggregate(data).years[l])
  {
    if data != [] {
      var init := data[..|data| - 1];
      var t := data[|data| - 1];
      YearsInFirstAppearanceOrder(init);
      KeysAreYears(init);
      var ys, ys' := YearColumn(init), YearColumn(data);
      assert ys' == ys + [t.year];
      var before, after := Aggregate(init).years, Aggregate(data).years;
      // Years already present keep their first position.
      forall y | y in ys ensures FirstIndex(ys', y) == FirstIndex(ys, y) {
        FirstIndexSnoc(ys, t.year, y);
      }
      forall k | 0 <= k < |before| ensures before[k] in ys {
        assert before[k] in Aggregate(init).entries.Keys;
        var i :| 0 <= i < |init| && init[i].year == before[k];
        assert ys[i] == before[k];
      }
      if t.year !in Aggregate(init).entries {
        forall i | 0 <= i < |ys| ensures ys[i] != t.year {
          assert ys[i] == init[i].year;
          assert ys[i] in YearSet(init);
        }
        assert FirstIndex(ys', t.year) == |init|;
        assert after == before + [t.year];
      }
    }
  }

  lemma {:induction false} FirstIndexSnoc(ys: seq<string>, x: string, y: string)
    requires y in ys
    ensures FirstIndex(ys + [x], y) == FirstIndex(ys, y)
  {
    if ys[0] != y {
      assert (ys + [x])[1..] == ys[1..] + [x];
      FirstIndexSnoc(ys[1..], x, y);
    }
  }

  lemma StepPick(s: Summary, team: TeamRecord, d: Dimension)
    requires team.year in s.entries
    ensures Pick(Step(s, team).entries[team.year], d) ==
      if Score(team, d) > Pick(s.entries[team.year], d).wins
      then Standing(team.teamName, Score(team, d))
      else Pick(s.entries[team.year], d)
  {
  }

  /** A later record that is of another year, or does not beat the current maximum, leaves the
      first greatest record of a year where it was. */
  lemma EarliestMaxKept(data: seq<TeamRecord>, y: string, j: int, d: Dimension)
    requires data != [] && IsEarliestMax(data[..|data| - 1], y, j, d)
    requires data[|data| - 1].year != y || Score(data[|data| - 1], d) <= Score(data[j], d)
    ensures IsEarliestMax(data, y, j, d)
  {
    assert forall i :: 0 <= i < |data| - 1 ==> data[i] == data[..|data| - 1][i];
  }

  /** A later record of the year that strictly beats the current maximum becomes the first
      greatest record. */
  lemma EarliestMaxReplaced(data: seq<TeamRecord>, y: string, j: int, d: Dimension)
    requires data != [] && IsEarliestMax(data[..|data| - 1], y, j, d)
    requires data[|data| - 1].year == y && Score(data[|data| - 1], d) > Score(data[j], d)
    ensures IsEarliestMax(data, y, |data| - 1, d)
  {
    assert forall i :: 0 <= i < |data| - 1 ==> data[i] == data[..|data| - 1][i];
  }

  /** The first record of a year is, so far, its first greatest record. */
  lemma EarliestMaxFirst(data: seq<TeamRecord>, d: Dimension)
    requires data != [] && data[|data| - 1].year !in YearSet(data[..|data| - 1])
    ensures IsEarliestMax(data, data[|data| - 1].year, |data| - 1, d)
  {
    var init := data[..|data| - 1];
    forall i | 0 <= i < |init| ensures data[i].year != data[|data| - 1].year {
      assert data[i] == init[i];
      assert init[i].year in YearSet(init);
    }
  }

  /** For every year, the winner (by wins) and the loser (by losses) name the first record of that
      year attaining the year's greatest count, and store that count. */
  lemma {:induction false} ChampionIsEarliestMax(data: seq<TeamRecord>, y: string, d: Dimension)
    requires y in Aggregate(data).entries
    ensures exists j :: IsEarliestMax(data, y, j, d)
                        && Pick(Aggregate(data).entries[y], d) == Standing(data[j].teamName, Score(data[j], d))
  {
    var init := data[..|data| - 1];
    var n := |init|;
    var t := data[n];
    if y !in Aggregate(init).entries {
      KeysAreYears(init);
      EarliestMaxFirst(data, d);
    } else {
      ChampionIsEarliestMax(init, y, d);
      var j :| IsEarliestMax(init, y, j, d)
               && Pick(Aggregate(init).entries[y], d) == Standing(init[j].teamName, Score(init[j], d));
      assert init[j] == data[j];
      if t.year != y {
        EarliestMaxKept(data, y, j, d);
      } else {
        StepPick(Aggregate(init), t, d);
        if Score(t, d) > Score(init[j], d) {
          EarliestMaxReplaced(data, y, j, d);
        } else {
          EarliestMaxKept(data, y, j, d);
        }
      }
    }
  }

  /** Only one record can be the first greatest of its year. */
  lemma EarliestMaxUnique(data: seq<TeamRecord>, y: string, j1: int, j2: int, d: Dimension)
    requires IsEarliestMax(data, y, j1, d) && IsEarliestMax(data, y, j2, d)
    ensures j1 == j2
  {
  }

  /** A year with a single record has that team as both winner and loser, with its own win and
      loss counts, whichever of the two is larger. */
  lemma SingleRecordYear(data: seq<TeamRecord>, i: nat)
    requires i < |data|
    requires forall k :: 0 <= k < |data| && k != i ==> data[k].year != data[i].year
    ensures data[i].year in Aggregate(data).entries
    ensures Aggregate(data).entries[data[i].year] ==
      Entry(Standing(data[i].teamName, data[i].win), Standing(data[i].teamName, data[i].losses))
  {
    var y := data[i].year;
    KeysAreYears(data);
    assert y in YearSet(data);
    ChampionIsEarliestMax(data, y, ByWins);
    ChampionIsEarliestMax(data, y, ByLosses);
  }

  /** Winner and loser are tracked independently: the winners depend only on names, years and
      wins, the losers only on names, years and losses, and the key order only on the years. */
  lemma {:induction false} DimensionsIndependent(a: seq<TeamRecord>, b: seq<TeamRecord>, d: Dimension)
    requires |a| == |b|
    requires forall i :: 0 <= i < |a| ==>
               a[i].teamName == b[i].teamName && a[i].year == b[i].year && Score(a[i], d) == Score(b[i], d)
    ensures Aggregate(a).years == Aggregate(b).years
    ensures Aggregate(a).entries.Keys == Aggregate(b).entries.Keys
    ensures forall y :: y in Aggregate(a).entries ==>
              Pick(Aggregate(a).entries[y], d) == Pick(Aggregate(b).entries[y], d)
  {
    if a != [] {
      var n := |a| - 1;
      DimensionsIndependent(a[..n], b[..n], d);
      var y := a[n].year;
      if y in Aggregate(a[..n]).entries {
        StepPick(Aggregate(a[..n]), a[n], d);
        StepPick(Aggregate(b[..n]), b[n], d);
      }
    }
  }

  // ---------------------------------------------------------------------------------------------
  // The "Winners and Losers" sheet

  /** One row of the summary sheet: Year, Winner, Winner Num. of Wins, Loser, Loser Num. of Wins. */
  datatype SummaryRow = SummaryRow(year: string, winner: string, winnerWins: int, loser: string, loserWins: int)

  /** The rows after the header, in the dictionary's iteration order. */
  function SummarySheet(s: Summary): (rows: seq<SummaryRow>)
    requires forall k :: 0 <= k < |s.years| ==> s.years[k] in s.entries
    ensures |rows| == |s.years|
  {
    seq(|s.years|, k requires 0 <= k < |s.years| && s.years[k] in s.entries =>
      var e := s.entries[s.years[k]];
      SummaryRow(s.years[k], e.winner.team, e.winner.wins, e.loser.team, e.loser.wins))
  }

  /** Every year the dictionary lists has an entry, so the summary sheet can be written. */
  ghost predicate Listed(s: Summary)
  {
    forall k :: 0 <= k < |s.years| ==> s.years[k] in s.entries
  }

  lemma SummarySheetYearColumn(s: Summary)
    requires Listed(s)
    ensures forall k :: 0 <= k < |s.years| ==> SummarySheet(s)[k].year == s.years[k]
  {
  }

  /** The summary sheet of a run has one row per year of the input and lists the years in order of
      first appearance. */
  lemma SummarySheetYears(data: seq<TeamRecord>)
    ensures Listed(Aggregate(data))
    ensures var rows := SummarySheet(Aggregate(data));
      && (forall y :: y in YearSet(data) <==> exists k :: 0 <= k < |rows| && rows[k].year == y)
      && (forall k, l :: 0 <= k < l < |rows| ==> rows[k].year != rows[l].year)
      && (forall k, l :: 0 <= k < l < |rows| ==>
            FirstIndex(YearColumn(data), rows[k].year) < FirstIndex(YearColumn(data), rows[l].year))
  {
    var s := Aggregate(data);
    KeysAreYears(data);
    YearsInFirstAppearanceOrder(data);
    SummarySheetYearColumn(s);
    var rows := SummarySheet(s);
    forall y | y in YearSet(data) ensures exists k :: 0 <= k < |rows| && rows[k].year == y {
      var k :| 0 <= k < |s.years| && s.years[k] == y;
      assert rows[k].year == y;
    }
  }

  /** Each summary row names the year's first most-winning team with its wins and the year's first
      most-losing team with its losses (under the heading "Loser Num. of Wins"). */
  lemma SummarySheetRow(data: seq<TeamRecord>, k: nat)
    requires k < |Aggregate(data).years|
    ensures Listed(Aggregate(data))
    ensures var row := SummarySheet(Aggregate(data))[k];
      && row.year == Aggregate(data).years[k]
      && (exists j :: IsEarliestMax(data, row.year, j, ByWins)
                      && row.winner == data[j].teamName && row.winnerWins == data[j].win)
      && (exists j :: IsEarliestMax(data, row.year, j, ByLosses)
                      && row.loser == data[j].teamName && row.loserWins == data[j].losses)
  {
    KeysAreYears(data);
    ChampionIsEarliestMax(data, Aggregate(data).years[k], ByWins);
    ChampionIsEarliestMax(data, Aggregate(data).years[k], ByLosses);
  }
}
