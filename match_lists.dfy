/**
 * The match pages: the calendar page splits the stored matches into upcoming and past ones and
 * badges each by its status; the home-page section shows the next three and the last two.
 * Dates are instants in milliseconds since the epoch.
 */
module MatchLists {
  import opened Wrappers
  import opened Seqs

  /** A row of the `partite` table, as the pages read it. */
  datatype Match = Match(
    id: string,
    squadraCasa: string,
    squadraOspite: string,
    dataPartita: int,
    stato: string)

  /** A fixture still to be played: scheduled, at or after `now`. */
  predicate IsUpcoming(m: Match, now: int) {
    m.stato == "programmata" && m.dataPartita >= now
  }

  /** A match already played: concluded, or scheduled for an instant before `now`. */
  predicate IsPast(m: Match, now: int) {
    m.stato == "conclusa" || (m.stato == "programmata" && m.dataPartita < now)
  }

  /** The upcoming matches of the calendar page; none when the query gave no data. */
  function UpcomingMatches(matches: Option<seq<Match>>, now: int): (r: seq<Match>)
    ensures matches.None? ==> r == []
    ensures forall k :: 0 <= k < |r| ==> IsUpcoming(r[k], now)
    ensures matches.Some? ==> forall k :: 0 <= k < |matches.value| && IsUpcoming(matches.value[k], now) ==>
                                matches.value[k] in r
  {
    if matches.Some? then Filter(matches.value, (m: Match) => IsUpcoming(m, now)) else []
  }

  /** The past matches of the calendar page; none when the query gave no data. */
  function PastMatches(matches: Option<seq<Match>>, now: int): (r: seq<Match>)
    ensures matches.None? ==> r == []
    ensures forall k :: 0 <= k < |r| ==> IsPast(r[k], now)
    ensures matches.Some? ==> forall k :: 0 <= k < |matches.value| && IsPast(matches.value[k], now) ==>
                                matches.value[k] in r
  {
    if matches.Some? then Filter(matches.value, (m: Match) => IsPast(m, now)) else []
  }

  /** A match that is either scheduled or concluded: the two states the lists show. */
  predicate IsListed(m: Match) {
    m.stato == "programmata" || m.stato == "conclusa"
  }

  /**
   * The two lists split the scheduled and concluded matches between them: every such match is in
   * exactly one of the lists, and matches in any other state (in progress, unknown) in neither.
   */
  lemma ListsPartition(matches: seq<Match>, now: int)
    ensures multiset(UpcomingMatches(Some(matches), now)) + multiset(PastMatches(Some(matches), now))
            == multiset(Filter(matches, IsListed))
  {
    FilterSplit(matches, (m: Match) => IsUpcoming(m, now), (m: Match) => IsPast(m, now), IsListed);
  }

  /** No match is both upcoming and past. */
  lemma ListsDisjoint(matches: Option<seq<Match>>, now: int)
    ensures forall m :: m in UpcomingMatches(matches, now) ==> m !in PastMatches(matches, now)
  {
  }

  /** Both lists keep the page's ordering, newest first. */
  lemma ListsKeepOrder(matches: seq<Match>, now: int)
    requires Pairwise(matches, (a: Match, b: Match) => a.dataPartita >= b.dataPartita)
    ensures Pairwise(UpcomingMatches(Some(matches), now), (a: Match, b: Match) => a.dataPartita >= b.dataPartita)
    ensures Pairwise(PastMatches(Some(matches), now), (a: Match, b: Match) => a.dataPartita >= b.dataPartita)
  {
    var newestFirst := (a: Match, b: Match) => a.dataPartita >= b.dataPartita;
    FilterIsSubseq(matches, (m: Match) => IsUpcoming(m, now));
    SubseqPairwise(UpcomingMatches(Some(matches), now), matches, newestFirst);
    FilterIsSubseq(matches, (m: Match) => IsPast(m, now));
    SubseqPairwise(PastMatches(Some(matches), now), matches, newestFirst);
  }

  /** The status badge of a match card. */
  datatype Badge = Conclusa | InCorso | DaAggiornare | Programmata | Sconosciuto

  /**
   * `getMatchStatusBadge`: a scheduled match whose instant has passed is flagged as waiting for
   * its result; any state other than the three the site writes is unknown.
   */
  function StatusBadge(stato: string, dataPartita: int, now: int): (b: Badge)
    ensures b == Conclusa <==> stato == "conclusa"
    ensures b == InCorso <==> stato == "in_corso"
    ensures b == DaAggiornare <==> stato == "programmata" && dataPartita < now
    ensures b == Programmata <==> stato == "programmata" && dataPartita >= now
  {
    match stato
    case "conclusa" => Conclusa
    case "in_corso" => InCorso
    case "programmata" => if dataPartita < now then DaAggiornare else Programmata
    case _ => Sconosciuto
  }

  /**
   * The badges agree with the lists of the calendar page: "Programmata" exactly on the upcoming
   * matches, "Conclusa" or "Da Aggiornare" exactly on the past ones.
   */
  lemma BadgeAgreesWithLists(m: Match, now: int)
    ensures StatusBadge(m.stato, m.dataPartita, now) == Programmata <==> IsUpcoming(m, now)
    ensures StatusBadge(m.stato, m.dataPartita, now) in {Conclusa, DaAggiornare} <==> IsPast(m, now)
  {
  }

  /** A match dated at or after `now`, whatever its state: the filter of the "next matches" query. */
  function FromNow(now: int): Match -> bool {
    (m: Match) => m.dataPartita >= now
  }

  /** A concluded match. */
  predicate IsConcluded(m: Match) {
    m.stato == "conclusa"
  }

  /** `IsUpcoming` at a given instant, as a filter. */
  function UpcomingAt(now: int): Match -> bool {
    (m: Match) => IsUpcoming(m, now)
  }

  /**
   * The home page's "next matches" query: from `now` on, earliest first, at most three. It shows
   * the first three rows dated from `now` on, or all of them when there are fewer, each a row of
   * the table.
   */
  function NextMatchesQuery(byDateAscending: seq<Match>, now: int): (r: seq<Match>)
    ensures FirstQualifying(r, byDateAscending, FromNow(now), 3)
    ensures forall k :: 0 <= k < |r| ==> r[k] in byDateAscending && r[k].dataPartita >= now
  {
    TakeFilterFirst(byDateAscending, FromNow(now), 3);
    Take(Filter(byDateAscending, FromNow(now)), 3)
  }

  /**
   * Over rows ordered by date, the home page lists the earliest matches from `now` on: no match
   * it leaves out comes before one it shows.
   */
  lemma NextMatchesAreEarliest(byDateAscending: seq<Match>, now: int)
    requires Pairwise(byDateAscending, (a: Match, b: Match) => a.dataPartita <= b.dataPartita)
    ensures forall m, j :: m in byDateAscending && m.dataPartita >= now && m !in NextMatchesQuery(byDateAscending, now) &&
                           0 <= j < |NextMatchesQuery(byDateAscending, now)| ==>
                             NextMatchesQuery(byDateAscending, now)[j].dataPartita <= m.dataPartita
  {
    var earliestFirst := (a: Match, b: Match) => a.dataPartita <= b.dataPartita;
    var fromNow := FromNow(now);
    FilterIsSubseq(byDateAscending, fromNow);
    SubseqPairwise(Filter(byDateAscending, fromNow), byDateAscending, earliestFirst);
    TakeComesFirst(Filter(byDateAscending, fromNow), 3, earliestFirst);
  }

  /**
   * The live query filters on the date alone, unlike the calendar page and the fallback: a
   * concluded match dated after `now` is among the home page's next matches.
   */
  lemma NextMatchesIgnoreStatus(m: Match, now: int)
    requires m.stato == "conclusa" && m.dataPartita >= now
    ensures NextMatchesQuery([m], now) == [m]
    ensures !IsUpcoming(m, now)
  {
    assert Filter([m], FromNow(now)) == [m] by {
      assert [m][1..] == [];
    }
  }

  /**
   * The home page's "latest results" query: concluded matches, newest first, at most two. It
   * shows the first two concluded rows, or all of them when there are fewer, each a row of the
   * table.
   */
  function LatestResultsQuery(byDateDescending: seq<Match>): (r: seq<Match>)
    ensures FirstQualifying(r, byDateDescending, IsConcluded, 2)
    ensures forall k :: 0 <= k < |r| ==> r[k] in byDateDescending && r[k].stato == "conclusa"
  {
    TakeFilterFirst(byDateDescending, IsConcluded, 2);
    Take(Filter(byDateDescending, IsConcluded), 2)
  }

  /** Over rows ordered newest first, no concluded match left out is newer than one shown. */
  lemma LatestResultsAreNewest(byDateDescending: seq<Match>)
    requires Pairwise(byDateDescending, (a: Match, b: Match) => a.dataPartita >= b.dataPartita)
    ensures forall m, j :: m in byDateDescending && m.stato == "conclusa" && m !in LatestResultsQuery(byDateDescending) &&
                           0 <= j < |LatestResultsQuery(byDateDescending)| ==>
                             LatestResultsQuery(byDateDescending)[j].dataPartita >= m.dataPartita
  {
    var newestFirst := (a: Match, b: Match) => a.dataPartita >= b.dataPartita;
    FilterIsSubseq(byDateDescending, IsConcluded);
    SubseqPairwise(Filter(byDateDescending, IsConcluded), byDateDescending, newestFirst);
    TakeComesFirst(Filter(byDateDescending, IsConcluded), 2, newestFirst);
  }

  /** How the home section's two queries ended. */
  datatype SectionQueries =
    | Threw
    | Answered(upcoming: Option<seq<Match>>, recent: Option<seq<Match>>)

  /** The two lists the home section shows. */
  datatype SectionLists = SectionLists(upcoming: seq<Match>, recent: seq<Match>)

  /**
   * `MatchesSection`: each list comes from its query when that returned data and is empty when it
   * did not; only when the client throws are both taken from the fallback list, the first three
   * scheduled matches from `now` on and the first two concluded ones, in the fallback's order.
   */
  function SectionMatches(queries: SectionQueries, fallback: seq<Match>, now: int): (r: SectionLists)
    ensures queries.Answered? ==> r.upcoming == (if queries.upcoming.Some? then queries.upcoming.value else [])
    ensures queries.Answered? ==> r.recent == (if queries.recent.Some? then queries.recent.value else [])
    ensures queries.Threw? ==> FirstQualifying(r.upcoming, fallback, UpcomingAt(now), 3)
    ensures queries.Threw? ==> FirstQualifying(r.recent, fallback, IsConcluded, 2)
    ensures queries.Threw? ==> forall k :: 0 <= k < |r.upcoming| ==> IsUpcoming(r.upcoming[k], now)
    ensures queries.Threw? ==> forall k :: 0 <= k < |r.recent| ==> r.recent[k].stato == "conclusa"
  {
    match queries
    case Threw =>
      TakeFilterFirst(fallback, UpcomingAt(now), 3);
      TakeFilterFirst(fallback, IsConcluded, 2);
      SectionLists(
        Take(Filter(fallback, UpcomingAt(now)), 3),
        Take(Filter(fallback, IsConcluded), 2))
    case Answered(upcoming, recent) =>
      SectionLists(
        if upcoming.Some? then upcoming.value else [],
        if recent.Some? then recent.value else [])
  }

  /** The fallback lists are subsequences of the fallback: they keep its order. */
  lemma FallbackKeepsOrder(fallback: seq<Match>, now: int)
    ensures IsSubseq(SectionMatches(Threw, fallback, now).upcoming, fallback)
    ensures IsSubseq(SectionMatches(Threw, fallback, now).recent, fallback)
  {
    var up := Filter(fallback, UpcomingAt(now));
    var done := Filter(fallback, IsConcluded);
    FilterIsSubseq(fallback, UpcomingAt(now));
    PrefixIsSubseq(up, |Take(up, 3)|);
    SubseqTrans(Take(up, 3), up, fallback);
    FilterIsSubseq(fallback, IsConcluded);
    PrefixIsSubseq(done, |Take(done, 2)|);
    SubseqTrans(Take(done, 2), done, fallback);
  }
}
