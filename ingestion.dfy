/**
 * One run of the ingestion script: the accumulator is emptied, the four provincial
 * championships and then the regional table are scraped into it, and the whole list is
 * written to the `partite` table in a single upsert on the natural key
 * `(squadra_casa, squadra_ospite, data_partita)`.
 */
module Ingestion {
  import opened Wrappers
  import opened Seqs
  import opened Text
  import opened TeamIdentity
  import opened MatchDates
  import opened Adapters

  /** A championship of the provincial portal: its id in the results URL and its category name. */
  datatype Championship = Championship(id: nat, name: string)

  /** The provincial championships the script reads, in the order it reads them. */
  const TriesteChampionships: seq<Championship> := [
    Championship(85747, "1a Divisione Maschile"),
    Championship(85684, "1a Divisione Femminile"),
    Championship(86019, "Under 15 Maschile"),
    Championship(85727, "Under 17 Maschile")
  ]

  /** The upsert's conflict target. */
  datatype NaturalKey = NaturalKey(squadraCasa: string, squadraOspite: string, dataPartita: Timestamp)

  function KeyOf(m: MatchRecord): (k: NaturalKey)
    ensures k.squadraCasa == m.squadraCasa && k.squadraOspite == m.squadraOspite
    ensures k.dataPartita == m.dataPartita
  {
    NaturalKey(m.squadraCasa, m.squadraOspite, m.dataPartita)
  }

  /** The keys of a batch. */
  function KeysOf(batch: seq<MatchRecord>): set<NaturalKey> {
    set m | m in batch :: KeyOf(m)
  }

  /** No two records of the batch share a key. */
  predicate DistinctKeys(batch: seq<MatchRecord>) {
    forall i, j :: 0 <= i < j < |batch| ==> KeyOf(batch[i]) != KeyOf(batch[j])
  }

  /** The table after inserting each record of the batch, or overwriting the row with its key. */
  function UpsertAll(table: map<NaturalKey, MatchRecord>, batch: seq<MatchRecord>): (r: map<NaturalKey, MatchRecord>)
    ensures r.Keys == table.Keys + KeysOf(batch)
    ensures forall k :: k in table && k !in KeysOf(batch) ==> r[k] == table[k]
    decreases |batch|
  {
    if batch == [] then table
    else
      assert KeysOf(batch) == {KeyOf(batch[0])} + KeysOf(batch[1..]) by {
        assert forall m :: m in batch <==> m == batch[0] || m in batch[1..];
      }
      UpsertAll(table[KeyOf(batch[0]) := batch[0]], batch[1..])
  }

  /**
   * `upsert(batch, { onConflict: 'squadra_casa,squadra_ospite,data_partita' })`: one
   * `INSERT ... ON CONFLICT DO UPDATE` statement. The store rejects the whole statement,
   * and nothing is written, when two records of the batch share a key.
   */
  function Upsert(table: map<NaturalKey, MatchRecord>, batch: seq<MatchRecord>): (r: Option<map<NaturalKey, MatchRecord>>)
    ensures r.Some? <==> DistinctKeys(batch)
    ensures r.Some? ==> r.value.Keys == table.Keys + KeysOf(batch)
    ensures r.Some? ==> forall k :: k in table && k !in KeysOf(batch) ==> r.value[k] == table[k]
  {
    if DistinctKeys(batch) then Some(UpsertAll(table, batch)) else None
  }

  /** With distinct keys, every record of the batch is the row stored under its key. */
  lemma {:induction false} UpsertAllStores(table: map<NaturalKey, MatchRecord>, batch: seq<MatchRecord>)
    requires DistinctKeys(batch)
    ensures forall i :: 0 <= i < |batch| ==> UpsertAll(table, batch)[KeyOf(batch[i])] == batch[i]
    decreases |batch|
  {
    if batch != [] {
      var t := table[KeyOf(batch[0]) := batch[0]];
      var rest := batch[1..];
      assert DistinctKeys(rest) by {
        forall i, j | 0 <= i < j < |rest| ensures KeyOf(rest[i]) != KeyOf(rest[j]) {
          assert rest[i] == batch[i + 1] && rest[j] == batch[j + 1];
        }
      }
      UpsertAllStores(t, rest);
      assert KeyOf(batch[0]) !in KeysOf(rest) by {
        forall m | m in rest ensures KeyOf(m) != KeyOf(batch[0]) {
          var j :| 0 <= j < |rest| && rest[j] == m;
          assert batch[j + 1] == m;
        }
      }
      forall i | 0 <= i < |batch| ensures UpsertAll(table, batch)[KeyOf(batch[i])] == batch[i] {
        if i > 0 {
          assert batch[i] == rest[i - 1];
        }
      }
    }
  }

  /** Upserting the same batch again changes nothing: re-running a write is harmless. */
  lemma UpsertIdempotent(table: map<NaturalKey, MatchRecord>, batch: seq<MatchRecord>)
    requires Upsert(table, batch).Some?
    ensures Upsert(Upsert(table, batch).value, batch) == Upsert(table, batch)
  {
    var once := UpsertAll(table, batch);
    var twice := UpsertAll(once, batch);
    UpsertAllStores(table, batch);
    UpsertAllStores(once, batch);
    forall k | k in twice ensures twice[k] == once[k] {
      if k in KeysOf(batch) {
        var m :| m in batch && KeyOf(m) == k;
        var i :| 0 <= i < |batch| && batch[i] == m;
        assert twice[KeyOf(batch[i])] == batch[i] == once[KeyOf(batch[i])];
      }
    }
    assert twice == once;
  }

  /** A batch whose keys are all stored already updates rows in place: the key set stays. */
  lemma UpsertKnownKeys(table: map<NaturalKey, MatchRecord>, batch: seq<MatchRecord>)
    requires Upsert(table, batch).Some? && KeysOf(batch) <= table.Keys
    ensures Upsert(table, batch).value.Keys == table.Keys
    ensures |Upsert(table, batch).value| == |table|
  {
    assert Upsert(table, batch).value.Keys == table.Keys;
  }

  /**
   * A fixture whose kickoff is not found is keyed by the wall clock of the run, so two runs
   * at different times store it twice: the second upsert adds a row instead of updating.
   */
  lemma RerunWithoutDateAddsRow(table: map<NaturalKey, MatchRecord>, e: GaraEntry, categoryName: string,
                                now1: int, now2: int)
    requires e.detail == NoLink && now1 != now2
    ensures var first := TriesteRecord(e, categoryName, now1);
            var second := TriesteRecord(e, categoryName, now2);
            && Upsert(table, [first]).Some?
            && Upsert(Upsert(table, [first]).value, [second]).Some?
            && var after := Upsert(Upsert(table, [first]).value, [second]).value;
               KeyOf(first) in after && KeyOf(second) in after && KeyOf(first) != KeyOf(second)
  {
    var first := TriesteRecord(e, categoryName, now1);
    var second := TriesteRecord(e, categoryName, now2);
    assert first.dataPartita == Fallback(now1) && second.dataPartita == Fallback(now2);
    UpsertOne(table, first);
    UpsertOne(table[KeyOf(first) := first], second);
  }

  /**
   * The key leaves out the scores, the state and the category: when a fixture stored as
   * scheduled is read again with its result, the upsert overwrites that row in place, and the
   * table keeps the same keys.
   */
  lemma RescoreUpdatesInPlace(table: map<NaturalKey, MatchRecord>, stored: MatchRecord, rescraped: MatchRecord)
    requires KeyOf(stored) in table
    requires rescraped.squadraCasa == stored.squadraCasa && rescraped.squadraOspite == stored.squadraOspite
    requires rescraped.dataPartita == stored.dataPartita
    ensures KeyOf(rescraped) == KeyOf(stored)
    ensures Upsert(table, [rescraped]).Some?
    ensures Upsert(table, [rescraped]).value.Keys == table.Keys
    ensures Upsert(table, [rescraped]).value[KeyOf(stored)] == rescraped
  {
    UpsertOne(table, rescraped);
  }

  /** Upserting one record stores it under its key. */
  lemma UpsertOne(table: map<NaturalKey, MatchRecord>, m: MatchRecord)
    ensures Upsert(table, [m]) == Some(table[KeyOf(m) := m])
  {
    assert DistinctKeys([m]);
    assert UpsertAll(table, [m]) == UpsertAll(table[KeyOf(m) := m], []) by {
      assert [m][0] == m && [m][1..] == [];
    }
  }

  /** The category a provincial championship files its records under. */
  predicate IsTriesteCategory(name: string, n: nat) {
    exists i :: 0 <= i < n && i < |TriesteChampionships| && TriesteChampionships[i].name == name
  }

  /** The records of the `n`-th championship's page are filed under one of the first `n`. */
  lemma CategoriesOfPage(page: seq<MatchRecord>, n: nat)
    requires 0 < n <= |TriesteChampionships|
    requires forall k :: 0 <= k < |page| ==> page[k].campionato == TriesteChampionships[n - 1].name
    ensures forall k :: 0 <= k < |page| ==> IsTriesteCategory(page[k].campionato, n)
  {
  }

  /** What is filed under one of the first `n - 1` championships is under one of the first `n`. */
  lemma CategoriesOfEarlier(before: seq<MatchRecord>, n: nat)
    requires 0 < n
    requires forall k :: 0 <= k < |before| ==> IsTriesteCategory(before[k].campionato, n - 1)
    ensures forall k :: 0 <= k < |before| ==> IsTriesteCategory(before[k].campionato, n)
  {
    forall k | 0 <= k < |before| ensures IsTriesteCategory(before[k].campionato, n) {
      var i :| 0 <= i < n - 1 && i < |TriesteChampionships| && TriesteChampionships[i].name == before[k].campionato;
    }
  }

  /**
   * The records the first `n` provincial championships yield, in the order they are read:
   * each a fixture of the club filed under one of those championships.
   */
  function TriesteRun(pages: nat -> Option<seq<GaraEntry>>, now: int, n: nat): (r: seq<MatchRecord>)
    requires n <= |TriesteChampionships|
    ensures forall k :: 0 <= k < |r| ==> IsMyTeam(r[k].squadraCasa, r[k].squadraOspite) &&
                                         IsTriesteCategory(r[k].campionato, n)
    decreases n
  {
    if n == 0 then []
    else
      var champ := TriesteChampionships[n - 1];
      var before := TriesteRun(pages, now, n - 1);
      var page := PageRecords(pages(champ.id), champ.name, now);
      CategoriesOfPage(page, n);
      CategoriesOfEarlier(before, n);
      before + page
  }

  /** The records of one provincial page; none when fetching the page failed. */
  function PageRecords(page: Option<seq<GaraEntry>>, categoryName: string, now: int): (r: seq<MatchRecord>)
    ensures page.None? ==> r == []
    ensures forall k :: 0 <= k < |r| ==> IsMyTeam(r[k].squadraCasa, r[k].squadraOspite) && r[k].campionato == categoryName
  {
    if page.Some? then TriesteRecords(page.value, categoryName, now) else []
  }

  /** The records of the regional table; none when fetching the table failed. */
  function TableRecords(page: Option<seq<FvgRow>>, now: int): (r: seq<MatchRecord>)
    ensures page.None? ==> r == []
    ensures forall k :: 0 <= k < |r| ==> IsMyTeam(r[k].squadraCasa, r[k].squadraOspite) &&
                                         r[k].campionato in {"Serie D Femminile", "Serie D Maschile", "Serie D"}
  {
    if page.Some? then FvgRecords(page.value, now) else []
  }

  /**
   * The accumulator at the end of a run: the provincial records, then the regional ones. Every
   * record a run writes is a fixture of the club, filed under a provincial championship or
   * under one of the three Serie D categories.
   */
  function RunRecords(pages: nat -> Option<seq<GaraEntry>>, fvgPage: Option<seq<FvgRow>>, now: int): (r: seq<MatchRecord>)
    ensures forall k :: 0 <= k < |r| ==> IsMyTeam(r[k].squadraCasa, r[k].squadraOspite)
    ensures forall k :: 0 <= k < |r| ==> IsTriesteCategory(r[k].campionato, |TriesteChampionships|) ||
                                         r[k].campionato in {"Serie D Femminile", "Serie D Maschile", "Serie D"}
  {
    TriesteRun(pages, now, |TriesteChampionships|) + TableRecords(fvgPage, now)
  }

  /**
   * The script's state: the module-level accumulator `allMatchesToSave`, the `partite`
   * table of the store, and how many upserts have been sent to the store.
   */
  class Scraper {
    var allMatchesToSave: seq<MatchRecord>
    var partite: map<NaturalKey, MatchRecord>
    var upserts: nat

    constructor(store: map<NaturalKey, MatchRecord>)
      ensures allMatchesToSave == [] && partite == store && upserts == 0
    {
      allMatchesToSave := [];
      partite := store;
      upserts := 0;
    }

    /**
     * The `for` loop of both adapters: one pass per element, in order, pushing what the pass
     * emits; an exception thrown by a pass ends the loop, keeping what was already pushed.
     */
    method Scan<T>(items: seq<T>, step: T -> Step<MatchRecord>)
      modifies this
      ensures allMatchesToSave == old(allMatchesToSave) + Collect(items, step)
      ensures partite == old(partite) && upserts == old(upserts)
    {
      var i := 0;
      while i < |items|
        invariant 0 <= i <= |items|
        invariant allMatchesToSave + Collect(items[i..], step) == old(allMatchesToSave) + Collect(items, step)
        invariant partite == old(partite) && upserts == old(upserts)
      {
        CollectFrom(items, step, i);
        var outcome := step(items[i]);
        if outcome.Stop? {
          break;
        } else if outcome.Emit? {
          allMatchesToSave := allMatchesToSave + [outcome.value];
        }
        i := i + 1;
      }
    }

    /**
     * `scrapeTriesteCampionship`: pushes the record of every fixture of the club on the
     * page, in page order; a failed fetch of the page pushes nothing.
     */
    method ScrapeTriesteCampionship(page: Option<seq<GaraEntry>>, categoryName: string, now: int)
      modifies this
      ensures allMatchesToSave == old(allMatchesToSave) + PageRecords(page, categoryName, now)
      ensures partite == old(partite) && upserts == old(upserts)
    {
      if page.Some? {
        Scan(page.value, TriesteStep(categoryName, now));
      }
    }

    /**
     * `scrapeFipavFVG`: pushes the record of every club row of the regional table, in table
     * order, until a row whose date is invalid throws; the records pushed before it stay.
     */
    method ScrapeFipavFvg(page: Option<seq<FvgRow>>, now: int)
      modifies this
      ensures allMatchesToSave == old(allMatchesToSave) + TableRecords(page, now)
      ensures partite == old(partite) && upserts == old(upserts)
    {
      if page.Some? {
        Scan(page.value, FvgStep(now));
      }
    }

    /**
     * The end of `main`: one upsert of the whole accumulated list on the natural key, sent only
     * when the list is not empty; a batch the store rejects leaves the table as it was.
     */
    method SaveAll()
      modifies this
      ensures allMatchesToSave == old(allMatchesToSave)
      ensures allMatchesToSave == [] ==> partite == old(partite) && upserts == old(upserts)
      ensures allMatchesToSave != [] ==> upserts == old(upserts) + 1
      ensures allMatchesToSave != [] ==>
                partite == match Upsert(old(partite), allMatchesToSave)
                           case Some(t) => t
                           case None => old(partite)
    {
      if |allMatchesToSave| > 0 {
        upserts := upserts + 1;
        var result := Upsert(partite, allMatchesToSave);
        if result.Some? {
          partite := result.value;
        }
      }
    }

    /**
     * `main`: empties the accumulator, reads the four provincial championships in order,
     * then the regional table, and sends one upsert of the whole list when it is not empty.
     * `pages` gives what fetching each provincial championship's results page gave.
     */
    method Run(pages: nat -> Option<seq<GaraEntry>>, fvgPage: Option<seq<FvgRow>>, now: int)
      modifies this
      ensures allMatchesToSave == RunRecords(pages, fvgPage, now)
      ensures allMatchesToSave == [] ==> partite == old(partite) && upserts == old(upserts)
      ensures allMatchesToSave != [] ==> upserts == old(upserts) + 1
      ensures allMatchesToSave != [] ==>
                partite == match Upsert(old(partite), allMatchesToSave)
                           case Some(t) => t
                           case None => old(partite)
    {
      allMatchesToSave := [];
      var c := 0;
      while c < |TriesteChampionships|
        invariant 0 <= c <= |TriesteChampionships|
        invariant allMatchesToSave == TriesteRun(pages, now, c)
        invariant partite == old(partite) && upserts == old(upserts)
      {
        var champ := TriesteChampionships[c];
        ScrapeTriesteCampionship(pages(champ.id), champ.name, now);
        c := c + 1;
      }
      ScrapeFipavFvg(fvgPage, now);
      SaveAll();
    }
  }
}
