/**
 * The `matches` table as the scraper writes it: rows keyed by
 * (tournament_id, n01_match_id), upserted in batches and closed in bulk
 * when a match disappears from the bracket.
 */
module Database {
  import opened Wrappers
  import opened Model

  /** A match as a caller hands it to `upsertMatches`; `None` is a missing field. */
  datatype MatchInput = MatchInput(
    n01MatchId: string,
    player1Name: string,
    player2Name: string,
    player1Score: Option<int>,
    player2Score: Option<int>,
    stationNumber: Option<int>,
    referee: Option<string>,
    status: Option<Status>,
    rawHtml: Option<string>)

  /** A stored row of the `matches` table. */
  datatype MatchRow = MatchRow(
    tournamentId: string,
    n01MatchId: string,
    player1Name: string,
    player2Name: string,
    player1Score: int,
    player2Score: int,
    stationNumber: Option<int>,
    referee: Option<string>,
    status: Status,
    rawHtml: Option<string>)

  /** The conflict target `tournament_id,n01_match_id`. */
  type RowKey = (string, string)

  function KeyOf(row: MatchRow): RowKey {
    (row.tournamentId, row.n01MatchId)
  }

  /** A bracket match as the scraper produces it, with every field present. */
  function InputOf(m: ScrapedMatch): MatchInput {
    MatchInput(m.n01MatchId, m.player1Name, m.player2Name, Some(m.player1Score), Some(m.player2Score),
               m.stationNumber, m.referee, Some(m.status), m.rawHtml)
  }

  /** A scraped match loses nothing on its way into the table: every field is stored as scraped. */
  lemma ScrapedMatchStored(tournamentId: string, m: ScrapedMatch)
    ensures var row := RowOf(tournamentId, InputOf(m));
      && KeyOf(row) == (tournamentId, m.n01MatchId)
      && row.player1Name == m.player1Name && row.player2Name == m.player2Name
      && row.player1Score == m.player1Score && row.player2Score == m.player2Score
      && row.stationNumber == m.stationNumber && row.referee == m.referee
      && row.status == m.status && row.rawHtml == m.rawHtml
  {
  }

  /** `score || 0`: a missing (or zero) score is stored as 0. */
  function ScoreOrZero(score: Option<int>): (r: int)
    ensures score.None? ==> r == 0
    ensures score.Some? ==> r == score.value
  {
    match score
    case None => 0
    case Some(v) => v
  }

  /** The row `matches.map(...)` builds for one match: the tournament attached, defaults filled in. */
  function RowOf(tournamentId: string, m: MatchInput): (r: MatchRow)
    ensures KeyOf(r) == (tournamentId, m.n01MatchId)
    ensures m.player1Score.None? ==> r.player1Score == 0
    ensures m.player2Score.None? ==> r.player2Score == 0
    ensures m.status.None? ==> r.status == Pending
    ensures m.status.Some? ==> r.status == m.status.value
  {
    MatchRow(tournamentId, m.n01MatchId, m.player1Name, m.player2Name,
             ScoreOrZero(m.player1Score), ScoreOrZero(m.player2Score),
             m.stationNumber, m.referee,
             match m.status case None => Pending case Some(s) => s,
             m.rawHtml)
  }

  /** The batch sent to the database. */
  function Batch(tournamentId: string, matches: seq<MatchInput>): (r: seq<MatchRow>)
    ensures |r| == |matches|
    ensures forall i | 0 <= i < |r| :: r[i] == RowOf(tournamentId, matches[i])
  {
    seq(|matches|, i requires 0 <= i < |matches| => RowOf(tournamentId, matches[i]))
  }

  /** Two matches of one batch share an id, so the upsert would touch one row twice. */
  predicate DuplicateIds(matches: seq<MatchInput>) {
    exists i, j | 0 <= i < j < |matches| :: matches[i].n01MatchId == matches[j].n01MatchId
  }

  /** The error PostgreSQL raises for such a batch. */
  const DuplicateKeyError: string := "ON CONFLICT DO UPDATE command cannot affect row a second time"

  // ---------------------------------------------------------------------
  // Upsert on the table's contents
  // ---------------------------------------------------------------------

  /** The table after inserting each row of the batch, or updating the row with its key. */
  function Upserted(table: map<RowKey, MatchRow>, batch: seq<MatchRow>): map<RowKey, MatchRow>
    decreases |batch|
  {
    if batch == [] then table
    else
      var last := batch[|batch| - 1];
      Upserted(table, batch[..|batch| - 1])[KeyOf(last) := last]
  }

  /** The last row of the batch with key `k`, if any. */
  function LastWith(batch: seq<MatchRow>, k: RowKey): (r: Option<MatchRow>)
    ensures r.Some? ==> KeyOf(r.value) == k && r.value in batch
    ensures r.Some? ==> exists i | 0 <= i < |batch| ::
      batch[i] == r.value && forall j | i < j < |batch| :: KeyOf(batch[j]) != k
    ensures r.None? <==> forall i | 0 <= i < |batch| :: KeyOf(batch[i]) != k
    decreases |batch|
  {
    if batch == [] then None
    else if KeyOf(batch[|batch| - 1]) == k then Some(batch[|batch| - 1])
    else
      var init := batch[..|batch| - 1];
      var r := LastWith(init, k);
      assert forall j | 0 <= j < |init| :: init[j] == batch[j];
      r
  }

  /** A key is in the upserted table iff it was before or the batch wrote it; the batch's last row wins. */
  lemma {:induction false} UpsertedLookup(table: map<RowKey, MatchRow>, batch: seq<MatchRow>, k: RowKey)
    ensures k in Upserted(table, batch) <==> k in table || LastWith(batch, k).Some?
    ensures k in Upserted(table, batch) ==>
      Upserted(table, batch)[k] == if LastWith(batch, k).Some? then LastWith(batch, k).value else table[k]
    decreases |batch|
  {
    if batch != [] {
      UpsertedLookup(table, batch[..|batch| - 1], k);
    }
  }

  /** In a batch without repeated keys, each row is the last (and only) row with its key. */
  lemma {:induction false} LastWithDistinct(batch: seq<MatchRow>, i: nat)
    requires i < |batch|
    requires forall a, b | 0 <= a < b < |batch| :: KeyOf(batch[a]) != KeyOf(batch[b])
    ensures LastWith(batch, KeyOf(batch[i])) == Some(batch[i])
    decreases |batch|
  {
    if i < |batch| - 1 {
      LastWithDistinct(batch[..|batch| - 1], i);
    }
  }

  /** Upserting the same batch twice changes nothing the first upsert did not. */
  lemma UpsertIdempotent(table: map<RowKey, MatchRow>, batch: seq<MatchRow>)
    ensures Upserted(Upserted(table, batch), batch) == Upserted(table, batch)
  {
    var once := Upserted(table, batch);
    var twice := Upserted(once, batch);
    forall k
      ensures k in twice <==> k in once
      ensures k in twice ==> twice[k] == once[k]
    {
      UpsertedLookup(table, batch, k);
      UpsertedLookup(once, batch, k);
    }
  }

  /** Two upserts in a row leave, under each key, the row written last. */
  lemma {:induction false} UpsertTwice(table: map<RowKey, MatchRow>, first: seq<MatchRow>, second: seq<MatchRow>)
    ensures Upserted(Upserted(table, first), second) == Upserted(table, first + second)
    decreases |second|
  {
    if second != [] {
      var init := second[..|second| - 1];
      UpsertTwice(table, first, init);
      assert (first + second)[..|first + second| - 1] == first + init;
    } else {
      assert first + second == first;
    }
  }

  // ---------------------------------------------------------------------
  // Closing matches that disappeared
  // ---------------------------------------------------------------------

  /** A row the bulk update selects: this tournament, still open, and not in the latest scrape. */
  predicate MissingAndOpen(row: MatchRow, tournamentId: string, activeIds: seq<string>) {
    && row.tournamentId == tournamentId
    && (row.status == Active || row.status == Pending)
    && row.n01MatchId !in activeIds
  }

  /** The table after `update({ status: 'finished' })` on the selected rows. */
  function FinishMissing(table: map<RowKey, MatchRow>, tournamentId: string, activeIds: seq<string>): (r: map<RowKey, MatchRow>)
    ensures r.Keys == table.Keys
    ensures forall k | k in table && MissingAndOpen(table[k], tournamentId, activeIds) ::
      r[k] == table[k].(status := Finished)
    ensures forall k | k in table && !MissingAndOpen(table[k], tournamentId, activeIds) :: r[k] == table[k]
  {
    map k | k in table :: if MissingAndOpen(table[k], tournamentId, activeIds) then table[k].(status := Finished) else table[k]
  }

  /** Afterwards every open row of the tournament is one the scrape listed. */
  lemma OpenRowsAreListed(table: map<RowKey, MatchRow>, tournamentId: string, activeIds: seq<string>)
    ensures forall k | k in FinishMissing(table, tournamentId, activeIds) ::
      var row := FinishMissing(table, tournamentId, activeIds)[k];
      row.tournamentId == tournamentId && (row.status == Active || row.status == Pending) ==> row.n01MatchId in activeIds
  {
  }

  /** A second bulk update with the same list changes nothing. */
  lemma FinishMissingIdempotent(table: map<RowKey, MatchRow>, tournamentId: string, activeIds: seq<string>)
    ensures FinishMissing(FinishMissing(table, tournamentId, activeIds), tournamentId, activeIds)
      == FinishMissing(table, tournamentId, activeIds)
  {
    var once := FinishMissing(table, tournamentId, activeIds);
    var twice := FinishMissing(once, tournamentId, activeIds);
    forall k | k in once
      ensures twice[k] == once[k]
    {
      assert !MissingAndOpen(once[k], tournamentId, activeIds);
    }
  }

  /**
   * `upsertMatches` followed by `markMissingMatchesAsFinished` with the same
   * matches' ids: every row just written keeps what the batch said about it,
   * because the bulk finish never touches a listed id.
   */
  lemma UpsertThenFinishKeepsBatch(table: map<RowKey, MatchRow>, tournamentId: string, matches: seq<MatchInput>)
    requires !DuplicateIds(matches)
    ensures var ids := seq(|matches|, i requires 0 <= i < |matches| => matches[i].n01MatchId);
      var after := FinishMissing(Upserted(table, Batch(tournamentId, matches)), tournamentId, ids);
      forall i | 0 <= i < |matches| ::
        && (tournamentId, matches[i].n01MatchId) in after
        && after[(tournamentId, matches[i].n01MatchId)] == RowOf(tournamentId, matches[i])
  {
    var ids := seq(|matches|, i requires 0 <= i < |matches| => matches[i].n01MatchId);
    var batch := Batch(tournamentId, matches);
    var written := Upserted(table, batch);
    forall i | 0 <= i < |matches|
      ensures (tournamentId, matches[i].n01MatchId) in written
      ensures written[(tournamentId, matches[i].n01MatchId)] == RowOf(tournamentId, matches[i])
      ensures matches[i].n01MatchId in ids
    {
      LastWithDistinct(batch, i);
      UpsertedLookup(table, batch, KeyOf(batch[i]));
      assert ids[i] == matches[i].n01MatchId;
    }
  }

  // ---------------------------------------------------------------------
  // The table
  // ---------------------------------------------------------------------

  /** The `matches` table, reduced to the rows the scraper reads and writes. */
  class MatchStore {
    var rows: map<RowKey, MatchRow>

    /** Every row is stored under its own key. */
    predicate Valid()
      reads this
    {
      forall k | k in rows :: KeyOf(rows[k]) == k
    }

    constructor ()
      ensures rows == map[]
      ensures Valid()
    {
      rows := map[];
    }

    /**
     * `upsertMatches(tournamentId, matches)`, with `fault` the error the
     * database reports, if any. Nothing is written for an empty list; an
     * error is thrown (returned here) and leaves the table unchanged.
     */
    method UpsertMatches(tournamentId: string, matches: seq<MatchInput>, fault: Option<string>)
      returns (r: Result<seq<MatchRow>, string>)
      requires Valid()
      modifies this
      ensures Valid()
      ensures |matches| == 0 ==> r == Success([]) && rows == old(rows)
      ensures |matches| > 0 && fault.Some? ==> r == Failure(fault.value) && rows == old(rows)
      ensures |matches| > 0 && fault.None? && DuplicateIds(matches) ==>
        r == Failure(DuplicateKeyError) && rows == old(rows)
      ensures |matches| > 0 && fault.None? && !DuplicateIds(matches) ==>
        r == Success(Batch(tournamentId, matches)) && rows == Upserted(old(rows), Batch(tournamentId, matches))
    {
      if |matches| == 0 {
        return Success([]);
      }
      var batch := Batch(tournamentId, matches);
      if fault.Some? {
        return Failure(fault.value);
      }
      if DuplicateIds(matches) {
        return Failure(DuplicateKeyError);
      }
      forall k | k in Upserted(rows, batch)
        ensures KeyOf(Upserted(rows, batch)[k]) == k
      {
        UpsertedLookup(rows, batch, k);
      }
      rows := Upserted(rows, batch);
      return Success(batch);
    }

    /**
     * `markMissingMatchesAsFinished(tournamentId, activeMatchIds)`, with
     * `fault` the error the database reports, if any. An empty list does
     * nothing; an error is only logged, and returned here as the logged text.
     */
    method MarkMissingMatchesAsFinished(tournamentId: string, activeIds: seq<string>, fault: Option<string>)
      returns (logged: Option<string>)
      requires Valid()
      modifies this
      ensures Valid()
      ensures |activeIds| == 0 ==> rows == old(rows) && logged == None
      ensures |activeIds| > 0 && fault.Some? ==> rows == old(rows) && logged == fault
      ensures |activeIds| > 0 && fault.None? ==> rows == FinishMissing(old(rows), tournamentId, activeIds) && logged == None
      ensures forall k | k in rows && k.1 in activeIds :: k in old(rows) && rows[k] == old(rows)[k]
    {
      if |activeIds| == 0 {
        return None;
      }
      if fault.Some? {
        return fault;
      }
      rows := FinishMissing(rows, tournamentId, activeIds);
      return None;
    }
  }
}
