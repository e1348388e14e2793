/**
 * The two adapters of the ingestion script, once the HTML has been reduced to strings: the
 * provincial results page (one `a.gara` link per fixture) and the regional results table
 * (one row per fixture), each turning a fixture of the club into a row of the `partite` table.
 */
module Adapters {
  import opened Wrappers
  import opened Text
  import opened JsParseInt
  import opened TeamIdentity
  import opened MatchDates
  import opened Seqs

  /**
   * One row of the `partite` table as the script writes it. A score of `None` is a NaN
   * from parseInt, which the JSON body carries as `null`.
   */
  datatype MatchRecord = MatchRecord(
    squadraCasa: string,
    squadraOspite: string,
    risultatoCasa: Option<int>,
    risultatoOspite: Option<int>,
    dataPartita: Timestamp,
    campionato: string,
    stato: string)

  /**
   * A fixture link of a provincial results page: the texts of the home and away name
   * blocks with their set counts removed, the texts of the two set counts, and what
   * following the link's `href` to the detail page gave.
   */
  datatype GaraEntry = GaraEntry(
    homeText: string,
    awayText: string,
    setHomeText: string,
    setAwayText: string,
    detail: Detail)

  /** The fixture involves the club, judged on the trimmed team names. */
  predicate IsClubEntry(e: GaraEntry) {
    IsMyTeam(Trim(e.homeText), Trim(e.awayText))
  }

  /**
   * The record of a provincial fixture: trimmed names, `parseInt(score) || 0` for each set
   * count (so a count without a digit, shown or not, is 0, and a numeral is its value), the
   * kickoff from the detail page, and "conclusa" when both set counts are shown.
   */
  function TriesteRecord(e: GaraEntry, categoryName: string, now: int): (r: MatchRecord)
    ensures r.squadraCasa == Trim(e.homeText) && r.squadraOspite == Trim(e.awayText)
    ensures r.stato == "conclusa" <==> Trim(e.setHomeText) != [] && Trim(e.setAwayText) != []
    ensures r.stato != "conclusa" ==> r.stato == "programmata"
    ensures r.risultatoCasa.Some? && r.risultatoOspite.Some?
    ensures NoDecDigit(Trim(e.setHomeText)) ==> r.risultatoCasa == Some(0)
    ensures NoDecDigit(Trim(e.setAwayText)) ==> r.risultatoOspite == Some(0)
    ensures IsDigitString(Trim(e.setHomeText)) ==> r.risultatoCasa == Some(Number(Trim(e.setHomeText)))
    ensures IsDigitString(Trim(e.setAwayText)) ==> r.risultatoOspite == Some(Number(Trim(e.setAwayText)))
    ensures r.dataPartita == TriesteDate(e.detail, now) && r.campionato == categoryName
  {
    var scoreHome := Trim(e.setHomeText);
    var scoreAway := Trim(e.setAwayText);
    var stato := if scoreHome != [] && scoreAway != [] then "conclusa" else "programmata";
    MatchRecord(Trim(e.homeText), Trim(e.awayText),
                Some(ParseIntOr0(scoreHome)), Some(ParseIntOr0(scoreAway)),
                TriesteDate(e.detail, now), categoryName, stato)
  }

  /** A set count written as a decimal numeral is stored as that number. */
  lemma TriesteScoreRoundTrip(e: GaraEntry, categoryName: string, now: int, home: nat, away: nat)
    requires Trim(e.setHomeText) == DecimalString(home)
    requires Trim(e.setAwayText) == DecimalString(away)
    ensures var r := TriesteRecord(e, categoryName, now);
            r.risultatoCasa == Some(home) && r.risultatoOspite == Some(away) && r.stato == "conclusa"
  {
    ParseIntRoundTrip(home);
    ParseIntRoundTrip(away);
  }

  /** One pass of the loop over a provincial page: push the record of a fixture of the club. */
  function TriesteOutcome(e: GaraEntry, categoryName: string, now: int): (r: Step<MatchRecord>)
    ensures !r.Stop?
    ensures r.Emit? <==> IsClubEntry(e)
  {
    if IsClubEntry(e) then Emit(TriesteRecord(e, categoryName, now)) else Skip
  }

  /** `TriesteOutcome` as the body of the loop over one provincial page. */
  function TriesteStep(categoryName: string, now: int): GaraEntry -> Step<MatchRecord> {
    e => TriesteOutcome(e, categoryName, now)
  }

  /**
   * The records a provincial results page yields, in page order: each a fixture of the club
   * filed under the page's category.
   */
  function TriesteRecords(entries: seq<GaraEntry>, categoryName: string, now: int): (r: seq<MatchRecord>)
    ensures forall k :: 0 <= k < |r| ==> IsMyTeam(r[k].squadraCasa, r[k].squadraOspite) && r[k].campionato == categoryName
  {
    CollectAll(entries, TriesteStep(categoryName, now),
               (m: MatchRecord) => IsMyTeam(m.squadraCasa, m.squadraOspite) && m.campionato == categoryName);
    Collect(entries, TriesteStep(categoryName, now))
  }

  /** Every fixture of the club on a provincial page has its record stored. */
  lemma TriesteRecordsKeep(entries: seq<GaraEntry>, categoryName: string, now: int, k: nat)
    requires k < |entries| && IsClubEntry(entries[k])
    ensures TriesteRecord(entries[k], categoryName, now) in TriesteRecords(entries, categoryName, now)
  {
    var f := TriesteStep(categoryName, now);
    assert forall j :: 0 <= j < k ==> !f(entries[j]).Stop? by {
      forall j | 0 <= j < k ensures !f(entries[j]).Stop? {
        var o := TriesteOutcome(entries[j], categoryName, now);
        assert f(entries[j]) == o;
      }
    }
    assert f(entries[k]) == Emit(TriesteRecord(entries[k], categoryName, now));
    CollectKeeps(entries, f, k);
  }

  /** A row of the regional results table: the texts of its cells and of its table's caption. */
  datatype FvgRow = FvgRow(cells: seq<string>, caption: string)

  /**
   * The championship of a regional row, decided in order from the lower-cased caption of
   * its table, then from the names of the club's two Serie D rosters; `None` when the
   * caption names a provincial championship, whose rows are skipped.
   */
  function FvgCategory(captionText: string, teamHome: string, teamAway: string): (r: Option<string>)
    ensures r.None? <==>
              && !(Includes(captionText, "serie d") && (Includes(captionText, " f ") || Includes(captionText, " m ")))
              && (Includes(captionText, "1 div") || Includes(captionText, "under"))
    ensures r.Some? ==> r.value in {"Serie D Femminile", "Serie D Maschile", "Serie D"}
    ensures Includes(captionText, "serie d") && Includes(captionText, " f ") ==> r == Some("Serie D Femminile")
    ensures Includes(captionText, "serie d") && !Includes(captionText, " f ") && Includes(captionText, " m ") ==>
              r == Some("Serie D Maschile")
    ensures NeutralCaption(captionText) && MensRoster(teamHome, teamAway) ==> r == Some("Serie D Maschile")
    ensures NeutralCaption(captionText) && !MensRoster(teamHome, teamAway) && WomensRoster(teamHome, teamAway) ==>
              r == Some("Serie D Femminile")
    ensures NeutralCaption(captionText) && !MensRoster(teamHome, teamAway) && !WomensRoster(teamHome, teamAway) ==>
              r == Some("Serie D")
  {
    if Includes(captionText, "serie d") && Includes(captionText, " f ") then Some("Serie D Femminile")
    else if Includes(captionText, "serie d") && Includes(captionText, " m ") then Some("Serie D Maschile")
    else if Includes(captionText, "1 div") || Includes(captionText, "under") then None
    else if Includes(Lower(teamHome), "rosso volley club ts") || Includes(Lower(teamAway), "rosso volley club ts") then
      Some("Serie D Maschile")
    else if Includes(Lower(teamHome), "volley club ts") || Includes(Lower(teamAway), "volley club ts") then
      Some("Serie D Femminile")
    else Some("Serie D")
  }

  /** The men's roster's name occurs, ignoring case, on either side. */
  predicate MensRoster(teamHome: string, teamAway: string) {
    Includes(Lower(teamHome), "rosso volley club ts") || Includes(Lower(teamAway), "rosso volley club ts")
  }

  /** The women's roster's name occurs, ignoring case, on either side. */
  predicate WomensRoster(teamHome: string, teamAway: string) {
    Includes(Lower(teamHome), "volley club ts") || Includes(Lower(teamAway), "volley club ts")
  }

  /** A caption that names neither a Serie D letter nor a provincial championship. */
  predicate NeutralCaption(captionText: string) {
    && !(Includes(captionText, "serie d") && (Includes(captionText, " f ") || Includes(captionText, " m ")))
    && !Includes(captionText, "1 div") && !Includes(captionText, "under")
  }

  /**
   * Under a neutral caption the men's roster wins: a row naming "ROSSO Volley Club TS" is
   * "Serie D Maschile", although its name also holds the women's roster name.
   */
  lemma FvgCategoryMensRoster(captionText: string, teamHome: string, teamAway: string)
    requires NeutralCaption(captionText)
    requires Includes(teamHome, TargetTeamNames[3])
    ensures Includes(Lower(teamHome), "volley club ts")
    ensures FvgCategory(captionText, teamHome, teamAway) == Some("Serie D Maschile")
  {
    IncludesLower(teamHome, TargetTeamNames[3]);
    LowerFourthName();
    assert OccursAt("rosso volley club ts", "volley club ts", 6);
    IncludesTransitive(Lower(teamHome), "rosso volley club ts", "volley club ts");
  }

  /**
   * Under a neutral caption a row naming "Volley Club TS", and no side naming the men's
   * roster, is "Serie D Femminile".
   */
  lemma FvgCategoryWomensRoster(captionText: string, teamHome: string, teamAway: string)
    requires NeutralCaption(captionText)
    requires Includes(teamAway, TargetTeamNames[2])
    requires !Includes(Lower(teamHome), "rosso volley club ts")
    requires !Includes(Lower(teamAway), "rosso volley club ts")
    ensures FvgCategory(captionText, teamHome, teamAway) == Some("Serie D Femminile")
  {
    IncludesLower(teamAway, TargetTeamNames[2]);
    LowerThirdName();
  }

  /**
   * The caption "Serie D F" holds no " f " (the letter ends the text), so the caption rule does
   * not fire; a row naming "Volley Club TS" and not the men's roster is still "Serie D Femminile",
   * through the fallback on the team names.
   */
  lemma SerieDFCaptionFallsBack(teamHome: string, teamAway: string)
    requires Includes(teamHome, TargetTeamNames[2])
    requires !Includes(Lower(teamHome), "rosso volley club ts")
    requires !Includes(Lower(teamAway), "rosso volley club ts")
    ensures !Includes(Lower("Serie D F"), " f ")
    ensures FvgCategory(Lower("Serie D F"), teamHome, teamAway) == Some("Serie D Femminile")
  {
    var c := Lower("Serie D F");
    assert c == "serie d f";
    forall i | 0 <= i <= |c| - 3 ensures !OccursAt(c, " f ", i) && !OccursAt(c, " m ", i) {
      assert c[i..i + 3][1] == c[i + 1];
    }
    forall i | 0 <= i <= |c| - 5 ensures !OccursAt(c, "1 div", i) && !OccursAt(c, "under", i) {
      assert c[i..i + 5][0] == c[i];
    }
    IncludesLower(teamHome, TargetTeamNames[2]);
    LowerThirdName();
  }

  /** Scores and state read from the result cell of a regional row. */
  datatype Score = Score(home: Option<int>, away: Option<int>, stato: string)

  /**
   * A result holding `-` and longer than two characters is a played match whose two sides
   * of the first `-` are read by parseInt (without `|| 0`, so a side without a digit is NaN);
   * anything else is 0-0, scheduled.
   */
  function FvgResult(rawResult: string): (r: Score)
    ensures r.stato == "conclusa" <==> '-' in rawResult && |rawResult| > 2
    ensures r.stato != "conclusa" ==> r == Score(Some(0), Some(0), "programmata")
    ensures r.stato == "conclusa" ==> |Split(rawResult, '-')| >= 2 &&
                                      r.home == ParseInt(Split(rawResult, '-')[0]) &&
                                      r.away == ParseInt(Split(rawResult, '-')[1])
    ensures r.stato == "conclusa" && NoDecDigit(Split(rawResult, '-')[0]) ==> r.home.None?
    ensures r.stato == "conclusa" && NoDecDigit(Split(rawResult, '-')[1]) ==> r.away.None?
  {
    if '-' in rawResult && |rawResult| > 2 then
      var scores := Split(rawResult, '-');
      ParseIntNoDigit(scores[0]);
      ParseIntNoDigit(scores[1]);
      Score(ParseInt(scores[0]), ParseInt(scores[1]), "conclusa")
    else Score(Some(0), Some(0), "programmata")
  }

  /** Round trip: a result written `home-away` is read back as those two set counts. */
  lemma FvgResultRoundTrip(home: nat, away: nat)
    ensures FvgResult(DecimalString(home) + "-" + DecimalString(away)) ==
            Score(Some(home), Some(away), "conclusa")
  {
    var a := DecimalString(home);
    var b := DecimalString(away);
    assert '-' !in a && '-' !in b by {
      assert forall k :: 0 <= k < |a| ==> IsDecDigit(a[k]);
      assert forall k :: 0 <= k < |b| ==> IsDecDigit(b[k]);
    }
    var s := a + "-" + b;
    assert s == a + ['-'] + b;
    assert s[|a|] == '-';
    SplitTwo(a, '-', b);
    ParseIntRoundTrip(home);
    ParseIntRoundTrip(away);
  }

  /** A row with the five cells the adapter reads, whose teams include the club. */
  predicate IsClubRow(row: FvgRow) {
    |row.cells| >= 5 && IsMyTeam(Trim(row.cells[3]), Trim(row.cells[4]))
  }

  /** The category a row of at least five cells is filed under, from its caption and teams. */
  function RowCategory(row: FvgRow): Option<string>
    requires |row.cells| >= 5
  {
    FvgCategory(Lower(row.caption), Trim(row.cells[3]), Trim(row.cells[4]))
  }

  /** The trimmed result cell, or the empty text when the row has no sixth cell. */
  function ResultCell(row: FvgRow): string {
    if |row.cells| > 5 then Trim(row.cells[5]) else ""
  }

  /**
   * One row of the regional table: rows of fewer than five cells and fixtures of other
   * clubs are skipped, then the category, the date and the result are read. `Stop` is the
   * `toISOString` of an Invalid Date, which throws and ends the scan of the table.
   */
  function FvgRowOutcome(row: FvgRow, now: int): (r: Step<MatchRecord>)
    ensures !IsClubRow(row) ==> r == Skip
    ensures IsClubRow(row) && RowCategory(row).None? ==> r == Skip
    ensures r.Stop? <==> IsClubRow(row) && RowCategory(row).Some? && FvgDate(Trim(row.cells[2]), now).None?
    ensures r.Emit? <==> IsClubRow(row) && RowCategory(row).Some? && FvgDate(Trim(row.cells[2]), now).Some?
    ensures r.Emit? ==> && r.value.squadraCasa == Trim(row.cells[3])
                        && r.value.squadraOspite == Trim(row.cells[4])
                        && r.value.dataPartita == FvgDate(Trim(row.cells[2]), now).value
                        && r.value.campionato == RowCategory(row).value
                        && Score(r.value.risultatoCasa, r.value.risultatoOspite, r.value.stato) == FvgResult(ResultCell(row))
    ensures r.Emit? && |row.cells| == 5 ==> r.value.stato == "programmata"
  {
    if |row.cells| < 5 then Skip
    else
      var rawDate := Trim(row.cells[2]);
      var teamHome := Trim(row.cells[3]);
      var teamAway := Trim(row.cells[4]);
      var rawResult := ResultCell(row);
      if !IsMyTeam(teamHome, teamAway) then Skip
      else
        match RowCategory(row)
        case None => Skip
        case Some(categoryName) =>
          match FvgDate(rawDate, now)
          case None => Stop
          case Some(matchDate) =>
            var score := FvgResult(rawResult);
            Emit(MatchRecord(teamHome, teamAway, score.home, score.away, matchDate, categoryName, score.stato))
  }

  /** `FvgRowOutcome` as the body of the loop over the regional table. */
  function FvgStep(now: int): FvgRow -> Step<MatchRecord> {
    row => FvgRowOutcome(row, now)
  }

  /**
   * The records the regional table yields: those of its rows up to the first that throws,
   * each a fixture of the club filed under one of the three Serie D categories.
   */
  function FvgRecords(rows: seq<FvgRow>, now: int): (r: seq<MatchRecord>)
    ensures forall k :: 0 <= k < |r| ==> IsMyTeam(r[k].squadraCasa, r[k].squadraOspite) &&
                                         r[k].campionato in {"Serie D Femminile", "Serie D Maschile", "Serie D"}
  {
    CollectAll(rows, FvgStep(now), (m: MatchRecord) => IsMyTeam(m.squadraCasa, m.squadraOspite) &&
                                                      m.campionato in {"Serie D Femminile", "Serie D Maschile", "Serie D"});
    Collect(rows, FvgStep(now))
  }

  /**
   * A row of fewer than five cells, or a fixture of other clubs, adds nothing: the table
   * reads as if the row were not there.
   */
  lemma FvgIgnoredRow(a: seq<FvgRow>, row: FvgRow, b: seq<FvgRow>, now: int)
    requires |row.cells| < 5 || !IsMyTeam(Trim(row.cells[3]), Trim(row.cells[4]))
    ensures FvgRecords(a + [row] + b, now) == FvgRecords(a + b, now)
  {
    CollectSkip(a, row, b, FvgStep(now));
  }

  /** A row that throws ends the scan: the rows after it add nothing. */
  lemma FvgRecordsStopAt(rows: seq<FvgRow>, k: nat, now: int)
    requires k < |rows| && FvgRowOutcome(rows[k], now).Stop?
    ensures FvgRecords(rows, now) == FvgRecords(rows[..k], now)
  {
    CollectStopAt(rows, FvgStep(now), k);
  }

  /**
   * A club row of a Serie D table with a `day/month/year hours:minutes` date and a
   * `home-away` result becomes the record of a played match with those numbers.
   */
  lemma FvgRowOfPlayedMatch(row: FvgRow, now: int, categoryName: string,
                            datePart: string, timePart: string,
                            day: int, month: int, year: int, hour: int, minute: int,
                            setsHome: nat, setsAway: nat)
    requires |row.cells| >= 6
    requires IsMyTeam(Trim(row.cells[3]), Trim(row.cells[4]))
    requires FvgCategory(Lower(row.caption), Trim(row.cells[3]), Trim(row.cells[4])) == Some(categoryName)
    requires Trim(row.cells[2]) == datePart + " " + timePart
    requires ' ' !in datePart && ' ' !in timePart
    requires ParseIntAt(Split(datePart, '/'), 0) == Some(day)
    requires ParseIntAt(Split(datePart, '/'), 1) == Some(month)
    requires ParseIntAt(Split(datePart, '/'), 2) == Some(year)
    requires ParseIntAt(Split(timePart, ':'), 0) == Some(hour)
    requires ParseIntAt(Split(timePart, ':'), 1) == Some(minute)
    requires Trim(row.cells[5]) == DecimalString(setsHome) + "-" + DecimalString(setsAway)
    ensures FvgRowOutcome(row, now) ==
            Emit(MatchRecord(Trim(row.cells[3]), Trim(row.cells[4]), Some(setsHome), Some(setsAway),
                             Local(FixYear(year), month - 1, day, hour, minute), categoryName, "conclusa"))
  {
    FvgDateOfNumbers(datePart, timePart, now, day, month, year, hour, minute);
    FvgResultRoundTrip(setsHome, setsAway);
    RowEmits(row, now, categoryName, Local(FixYear(year), month - 1, day, hour, minute),
             Score(Some(setsHome), Some(setsAway), "conclusa"));
  }

  /** A club row whose category, date and result are read emits the record made of them. */
  lemma RowEmits(row: FvgRow, now: int, categoryName: string, date: Timestamp, score: Score)
    requires IsClubRow(row) && RowCategory(row) == Some(categoryName)
    requires FvgDate(Trim(row.cells[2]), now) == Some(date)
    requires FvgResult(ResultCell(row)) == score
    ensures FvgRowOutcome(row, now) ==
            Emit(MatchRecord(Trim(row.cells[3]), Trim(row.cells[4]), score.home, score.away, date, categoryName,
                             score.stato))
  {
  }

  /**
   * A club row of a Serie D table whose date cell lacks the year (`dd/mm HH:MM`) makes an
   * Invalid Date; its `toISOString` throws, so no row from it onwards is stored.
   */
  lemma FvgYearlessDateEndsScan(rows: seq<FvgRow>, k: nat, now: int, datePart: string, timePart: string)
    requires k < |rows| && |rows[k].cells| >= 5
    requires IsMyTeam(Trim(rows[k].cells[3]), Trim(rows[k].cells[4]))
    requires FvgCategory(Lower(rows[k].caption), Trim(rows[k].cells[3]), Trim(rows[k].cells[4])).Some?
    requires Trim(rows[k].cells[2]) == datePart + " " + timePart
    requires ' ' !in datePart && ' ' !in timePart
    requires '/' in datePart && |Split(datePart, '/')| < 3
    ensures FvgRecords(rows, now) == FvgRecords(rows[..k], now)
  {
    assert IsClubRow(rows[k]) && RowCategory(rows[k]).Some?;
    FvgDateWithoutYear(datePart, timePart, now);
    assert FvgRowOutcome(rows[k], now).Stop?;
    FvgRecordsStopAt(rows, k, now);
  }
}
